/**
 Quoting and escaping (internal/domain/database/sql_builder.go), against the lexical
 rules of the two servers: section 9.1.1 of the MySQL 8.0 manual for string literals,
 9.2 for identifiers, section 4.1 of the PostgreSQL manual for both.
 */
module SqlEscape {
  import opened Common

  datatype DbType = MySql | PostgreSql | Redis

  // ---- Replacing ----

  /** strings.ReplaceAll, for a pattern that is not empty. */
  function ReplaceAll(s: string, pattern: string, text: string): string
    requires pattern != []
  {
    if s == [] then []
    else if pattern <= s then text + ReplaceAll(s[|pattern|..], pattern, text)
    else [s[0]] + ReplaceAll(s[1..], pattern, text)
  }

  /** Every character replaced by a text of its own. */
  function Each(s: string, f: char -> string): string {
    if s == [] then [] else f(s[0]) + Each(s[1..], f)
  }

  function Swap(c: char, text: string): char -> string {
    (x: char) => if x == c then text else [x]
  }

  lemma {:induction false} ReplaceOne(s: string, c: char, text: string)
    ensures ReplaceAll(s, [c], text) == Each(s, Swap(c, text))
  {
    if s != [] {
      assert [c] <= s <==> s[0] == c;
      ReplaceOne(s[1..], c, text);
    }
  }

  lemma {:induction false} EachAppend(a: string, b: string, f: char -> string)
    ensures Each(a + b, f) == Each(a, f) + Each(b, f)
  {
    if a == [] {
      assert a + b == b;
    } else {
      assert (a + b)[1..] == a[1..] + b;
      EachAppend(a[1..], b, f);
    }
  }

  function Then(f: char -> string, g: char -> string): char -> string {
    (x: char) => Each(f(x), g)
  }

  /** Two passes are one. */
  lemma {:induction false} TwoPasses(s: string, f: char -> string, g: char -> string)
    ensures Each(Each(s, f), g) == Each(s, Then(f, g))
  {
    if s != [] {
      EachAppend(f(s[0]), Each(s[1..], f), g);
      TwoPasses(s[1..], f, g);
    }
  }

  lemma {:induction false} EachSame(s: string, f: char -> string, g: char -> string)
    requires forall x :: f(x) == g(x)
    ensures Each(s, f) == Each(s, g)
  {
    if s != [] {
      EachSame(s[1..], f, g);
    }
  }

  // ---- Escaping ----

  function MySqlChar(x: char): string {
    match x
    case '\\' => "\\\\"
    case '\'' => "\\'"
    case '"' => "\\\""
    case '\n' => "\\n"
    case '\r' => "\\r"
    case '\t' => "\\t"
    case '\0' => "\\0"
    case _ => [x]
  }

  function EscapeChar(db: DbType): char -> string {
    match db
    case MySql => (x: char) => MySqlChar(x)
    case PostgreSql => Swap('\'', "''")
    case Redis => (x: char) => [x]
  }

  /** Character by character. */
  function Escaped(db: DbType, s: string): string {
    Each(s, EscapeChar(db))
  }

  lemma EachOfOne(x: char, f: char -> string)
    ensures Each([x], f) == f(x)
  {
    assert [x][1..] == [];
  }

  lemma EachOfTwo(x: char, y: char, f: char -> string)
    ensures Each([x, y], f) == f(x) + f(y)
  {
    assert [x, y][1..] == [y];
    EachOfOne(y, f);
  }

  const PASSES := 7

  /** What the n-th pass looks for, and the letter it puts behind a backslash instead. */
  function Sought(n: nat): char
    requires n < PASSES
  {
    ['\\', '\'', '"', '\n', '\r', '\t', '\0'][n]
  }

  function Letter(n: nat): char
    requires n < PASSES
  {
    ['\\', '\'', '"', 'n', 'r', 't', '0'][n]
  }

  /** What has become of a character after the first `n` passes. */
  function Passed(n: nat, x: char): string
    requires n <= PASSES
  {
    if n == 0 then [x] else if x == Sought(n - 1) then ['\\', Letter(n - 1)] else Passed(n - 1, x)
  }

  function PassedBy(n: nat): char -> string
    requires n <= PASSES
  {
    (x: char) => Passed(n, x)
  }

  lemma {:induction false} PassedForms(n: nat, x: char)
    requires n <= PASSES
    ensures Passed(n, x) == [x] || exists i: nat :: i < n && Passed(n, x) == ['\\', Letter(i)]
    ensures (forall i: nat :: i < n ==> x != Sought(i)) ==> Passed(n, x) == [x]
  {
    if n > 0 {
      PassedForms(n - 1, x);
    }
  }

  /** A later pass leaves alone what the earlier ones wrote. */
  lemma NextChar(n: nat, x: char)
    requires n < PASSES
    ensures Each(Passed(n, x), Swap(Sought(n), ['\\', Letter(n)])) == Passed(n + 1, x)
  {
    PassedForms(n, x);
    var swap := Swap(Sought(n), ['\\', Letter(n)]);
    if Passed(n, x) == [x] {
      EachOfOne(x, swap);
    } else {
      var i: nat :| i < n && Passed(n, x) == ['\\', Letter(i)];
      EachOfTwo('\\', Letter(i), swap);
    }
  }

  lemma NextPass(text: string, n: nat)
    requires n < PASSES
    ensures ReplaceAll(Each(text, PassedBy(n)), [Sought(n)], ['\\', Letter(n)]) == Each(text, PassedBy(n + 1))
  {
    var swap := Swap(Sought(n), ['\\', Letter(n)]);
    ReplaceOne(Each(text, PassedBy(n)), Sought(n), ['\\', Letter(n)]);
    TwoPasses(text, PassedBy(n), swap);
    forall x ensures Then(PassedBy(n), swap)(x) == PassedBy(n + 1)(x) {
      NextChar(n, x);
    }
    EachSame(text, Then(PassedBy(n), swap), PassedBy(n + 1));
  }

  lemma NoPass(text: string)
    ensures Each(text, PassedBy(0)) == text
  {
    EachSame(text, PassedBy(0), EscapeChar(Redis));
    NoEscape(text);
  }

  lemma AllPasses(text: string)
    ensures Each(text, PassedBy(PASSES)) == Escaped(MySql, text)
  {
    forall x ensures Passed(7, x) == MySqlChar(x) {
      assert Passed(7, x) == if x == '\0' then "\\0" else Passed(6, x);
      assert Passed(6, x) == if x == '\t' then "\\t" else Passed(5, x);
      assert Passed(5, x) == if x == '\r' then "\\r" else Passed(4, x);
      assert Passed(4, x) == if x == '\n' then "\\n" else Passed(3, x);
      assert Passed(3, x) == if x == '"' then "\\\"" else Passed(2, x);
      assert Passed(2, x) == if x == '\'' then "\\'" else Passed(1, x);
      assert Passed(1, x) == if x == '\\' then "\\\\" else [x];
    }
    EachSame(text, PassedBy(PASSES), EscapeChar(MySql));
  }

  /** The seven passes, in the order of the code, escape each character on its own. */
  method EscapeString(db: DbType, text: string) returns (s: string)
    ensures s == Escaped(db, text)
  {
    hide *;
    match db {
      case MySql => s := EscapeMySql(text);
      case PostgreSql =>
        ReplaceQuotes(text);
        s := ReplaceAll(text, "'", "''");
      case Redis =>
        NoEscape(text);
        s := text;
    }
  }

  lemma ReplaceQuotes(text: string)
    ensures ReplaceAll(text, "'", "''") == Escaped(PostgreSql, text)
  {
    ReplaceOne(text, '\'', "''");
  }

  method EscapeMySql(text: string) returns (s: string)
    ensures s == Escaped(MySql, text)
  {
    hide ReplaceAll, Each, PassedBy, Passed;
    s := text;
    NoPass(text);
    NextPass(text, 0);
    s := ReplaceAll(s, "\\", "\\\\");
    NextPass(text, 1);
    s := ReplaceAll(s, "'", "\\'");
    NextPass(text, 2);
    s := ReplaceAll(s, "\"", "\\\"");
    NextPass(text, 3);
    s := ReplaceAll(s, "\n", "\\n");
    NextPass(text, 4);
    s := ReplaceAll(s, "\r", "\\r");
    NextPass(text, 5);
    s := ReplaceAll(s, "\t", "\\t");
    NextPass(text, 6);
    s := ReplaceAll(s, "\0", "\\0");
    AllPasses(text);
  }

  lemma {:induction false} NoEscape(s: string)
    ensures Escaped(Redis, s) == s
  {
    if s != [] {
      NoEscape(s[1..]);
    }
  }

  /** The quote of identifiers. */
  function IdentQuote(db: DbType): string {
    match db
    case MySql => "`"
    case PostgreSql => "\""
    case Redis => ""
  }

  function QuoteIdentifier(db: DbType, name: string): string {
    match db
    case MySql => "`" + ReplaceAll(name, "`", "``") + "`"
    case PostgreSql => "\"" + ReplaceAll(name, "\"", "\"\"") + "\""
    case Redis => name
  }

  // ---- Reading back ----

  /** What a server reads after an opening quote: the value, and the text behind the closing quote. */
  type Reading = Option<(string, string)>

  function Prepend(s: string, r: Reading): Reading {
    match r
    case None => None
    case Some((value, rest)) => Some((s + value, rest))
  }

  /** Inside quotes a doubled quote stands for itself. */
  function LexDoubled(q: char, s: string): Reading {
    if s == [] then None
    else if s[0] != q then Prepend([s[0]], LexDoubled(q, s[1..]))
    else if |s| > 1 && s[1] == q then Prepend([q], LexDoubled(q, s[2..]))
    else Some(([], s[1..]))
  }

  /** The escape sequences of MySQL; `\%` and `\_` keep their backslash. */
  function Unescape(c: char): string {
    match c
    case '0' => "\0"
    case 'b' => "\U{08}"
    case 'n' => "\n"
    case 'r' => "\r"
    case 't' => "\t"
    case 'Z' => "\U{1A}"
    case '%' => "\\%"
    case '_' => "\\_"
    case _ => [c]
  }

  function LexMySql(s: string): Reading {
    if s == [] then None
    else if s[0] == '\\' then
      if |s| == 1 then None else Prepend(Unescape(s[1]), LexMySql(s[2..]))
    else if s[0] != '\'' then Prepend([s[0]], LexMySql(s[1..]))
    else if |s| > 1 && s[1] == '\'' then Prepend("'", LexMySql(s[2..]))
    else Some(([], s[1..]))
  }

  function Lex(db: DbType, s: string): Reading
    requires !db.Redis?
  {
    if db.MySql? then LexMySql(s) else LexDoubled('\'', s)
  }

  lemma PrependTwice(a: string, b: string, r: Reading)
    ensures Prepend(a, Prepend(b, r)) == Prepend(a + b, r)
    ensures Prepend([], r) == r
  {
    if r.Some? {
      assert a + (b + r.value.0) == a + b + r.value.0;
      assert [] + r.value.0 == r.value.0;
    }
  }

  lemma LexChar(x: char, t: string)
    ensures LexMySql(MySqlChar(x) + t) == Prepend([x], LexMySql(t))
  {
    var e := MySqlChar(x);
    if |e| == 2 {
      assert (e + t)[2..] == t && (e + t)[0] == '\\' && (e + t)[1] == e[1];
      assert Unescape(e[1]) == [x];
    } else {
      assert (e + t)[1..] == t && (e + t)[0] == x;
    }
  }

  /** Escaped text is read as the text it was made from, whatever follows. */
  lemma {:induction false} LexEscapedMySql(s: string, t: string)
    ensures LexMySql(Escaped(MySql, s) + t) == Prepend(s, LexMySql(t))
  {
    PrependTwice([], [], LexMySql(t));
    if s == [] {
      assert Escaped(MySql, s) + t == t;
    } else {
      var rest := Escaped(MySql, s[1..]);
      LexEscapedMySql(s[1..], t);
      assert Escaped(MySql, s) + t == MySqlChar(s[0]) + (rest + t);
      LexChar(s[0], rest + t);
      PrependTwice([s[0]], s[1..], LexMySql(t));
      assert [s[0]] + s[1..] == s;
    }
  }

  lemma {:induction false} LexDoubledText(q: char, s: string, t: string)
    ensures LexDoubled(q, Each(s, Swap(q, [q, q])) + t) == Prepend(s, LexDoubled(q, t))
  {
    var f := Swap(q, [q, q]);
    PrependTwice([], [], LexDoubled(q, t));
    if s == [] {
      assert Each(s, f) + t == t;
    } else {
      var rest := Each(s[1..], f) + t;
      LexDoubledText(q, s[1..], t);
      assert Each(s, f) + t == f(s[0]) + rest;
      assert (f(s[0]) + rest)[|f(s[0])|..] == rest;
      PrependTwice([s[0]], s[1..], LexDoubled(q, t));
      assert [s[0]] + s[1..] == s;
    }
  }

  lemma LexEscaped(db: DbType, s: string, t: string)
    requires !db.Redis?
    ensures Lex(db, Escaped(db, s) + t) == Prepend(s, Lex(db, t))
  {
    if db.MySql? {
      LexEscapedMySql(s, t);
    } else {
      LexDoubledText('\'', s, t);
    }
  }

  predicate StartsWith(s: string, c: char) {
    s != [] && s[0] == c
  }

  /**
   A quoted literal is read back as the value it was made from, and the reading ends
   exactly at its closing quote, if and only if no quote follows it.
   */
  lemma LiteralReadsBackIff(db: DbType, s: string, rest: string)
    requires !db.Redis?
    ensures Lex(db, Escaped(db, s) + "'" + rest) == Some((s, rest)) <==> !StartsWith(rest, '\'')
  {
    assert Escaped(db, s) + "'" + rest == Escaped(db, s) + ("'" + rest);
    var t := "'" + rest;
    LexEscaped(db, s, t);
    assert t[1..] == rest;
    if StartsWith(rest, '\'') {
      assert t[1] == '\'' && t[2..] == rest[1..];
      var r := Lex(db, rest[1..]);
      PrependTwice(s, "'", r);
      if r.Some? {
        assert |s + "'" + r.value.0| > |s|;
      }
    } else {
      assert s + [] == s;
    }
  }

  /** Different values have different literals. */
  lemma EscapingIsInjective(db: DbType, s: string, t: string)
    requires !db.Redis? && Escaped(db, s) == Escaped(db, t)
    ensures s == t
  {
    LiteralReadsBackIff(db, s, "");
    LiteralReadsBackIff(db, t, "");
  }

  lemma DoublingReadsBackIff(q: char, s: string, rest: string)
    ensures LexDoubled(q, Each(s, Swap(q, [q, q])) + [q] + rest) == Some((s, rest)) <==> !StartsWith(rest, q)
  {
    var t := [q] + rest;
    assert Each(s, Swap(q, [q, q])) + [q] + rest == Each(s, Swap(q, [q, q])) + t;
    LexDoubledText(q, s, t);
    assert t[1..] == rest;
    if StartsWith(rest, q) {
      assert t[1] == q && t[2..] == rest[1..];
      var r := LexDoubled(q, rest[1..]);
      PrependTwice(s, [q], r);
      if r.Some? {
        assert |s + [q] + r.value.0| > |s|;
      }
    } else {
      assert s + [] == s;
    }
  }

  /** The same for identifiers. */
  lemma IdentifierReadsBackIff(db: DbType, name: string, rest: string)
    requires !db.Redis?
    ensures var q, text := IdentQuote(db)[0], QuoteIdentifier(db, name);
            && StartsWith(text, q)
            && (LexDoubled(q, text[1..] + rest) == Some((name, rest)) <==> !StartsWith(rest, q))
  {
    hide LexDoubled, Each, ReplaceAll;
    var q := IdentQuote(db)[0];
    ReplaceOne(name, q, [q, q]);
    assert QuoteIdentifier(db, name) == [q] + (Each(name, Swap(q, [q, q])) + [q]);
    assert QuoteIdentifier(db, name)[1..] == Each(name, Swap(q, [q, q])) + [q];
    DoublingReadsBackIff(q, name, rest);
  }
}
