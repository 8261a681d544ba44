/**
 What a server reads in whole statements: the text handed to the driver, and the rendered
 text, of the builders in internal/domain/database/sql_builder.go.
 */
module SqlTokens {
  import opened Common
  import opened SqlEscape
  import opened SqlBuilder

  /** A quoted identifier, a string literal, a placeholder as it is written, or any other character. */
  datatype Token = Ident(name: string) | Literal(value: string) | Param(text: string) | Plain(c: char)

  type Lexed = Option<seq<Token>>

  function Prefixed(ts: seq<Token>, r: Lexed): Lexed {
    match r
    case None => None
    case Some(more) => Some(ts + more)
  }

  predicate IsQuote(c: char) {
    c == '\'' || c == '"' || c == '`'
  }

  predicate IsMark(db: DbType, s: string)
    requires s != []
  {
    if db.PostgreSql? then s[0] == '$' && |s| > 1 && IsDigit(s[1]) else s[0] == '?'
  }

  /** How many digits the text begins with. */
  function Digits(s: string): (n: nat)
    ensures n <= |s|
  {
    if s != [] && IsDigit(s[0]) then 1 + Digits(s[1..]) else 0
  }

  /** The tokens of a statement; None if it ends inside quotes or uses quotes the builders do not. */
  function Tokens(db: DbType, s: string): Lexed
    requires !db.Redis?
    decreases |s|
  {
    if s == [] then Some([])
    else if s[0] == IdentQuote(db)[0] then
      match LexDoubled(s[0], s[1..])
      case None => None
      case Some((name, rest)) => if |rest| >= |s| then None else Prefixed([Ident(name)], Tokens(db, rest))
    else if s[0] == '\'' then
      match Lex(db, s[1..])
      case None => None
      case Some((value, rest)) => if |rest| >= |s| then None else Prefixed([Literal(value)], Tokens(db, rest))
    else if IsQuote(s[0]) then None
    else if IsMark(db, s) then
      var n := if db.PostgreSql? then 1 + Digits(s[1..]) else 1;
      Prefixed([Param(s[..n])], Tokens(db, s[n..]))
    else Prefixed([Plain(s[0])], Tokens(db, s[1..]))
  }

  function Plains(t: string): seq<Token> {
    seq(|t|, i requires 0 <= i < |t| => Plain(t[i]))
  }

  predicate IsPlain(t: string) {
    forall i :: 0 <= i < |t| ==> !IsQuote(t[i]) && t[i] != '?' && t[i] != '$'
  }

  lemma PrefixedTwice(a: seq<Token>, b: seq<Token>, r: Lexed)
    ensures Prefixed(a, Prefixed(b, r)) == Prefixed(a + b, r)
    ensures Prefixed([], r) == r
  {
    if r.Some? {
      assert a + (b + r.value) == a + b + r.value && [] + r.value == r.value;
    }
  }

  // ---- Tokens one by one ----

  lemma CharLexes(db: DbType, c: char, b: string)
    requires !db.Redis? && !IsQuote(c) && c != '?' && c != '$'
    ensures Tokens(db, [c] + b) == Prefixed([Plain(c)], Tokens(db, b))
  {
    hide Lex, LexDoubled;
    var s := [c] + b;
    assert s[0] == c && s[1..] == b;
  }

  lemma {:induction false} PlainLexes(db: DbType, t: string, b: string)
    requires !db.Redis? && IsPlain(t)
    ensures Tokens(db, t + b) == Prefixed(Plains(t), Tokens(db, b))
    decreases |t|
  {
    hide Tokens;
    PrefixedTwice([], [], Tokens(db, b));
    if t == [] {
      assert t + b == b && Plains(t) == [];
    } else {
      assert t + b == [t[0]] + (t[1..] + b);
      CharLexes(db, t[0], t[1..] + b);
      PlainLexes(db, t[1..], b);
      PrefixedTwice([Plain(t[0])], Plains(t[1..]), Tokens(db, b));
      assert [Plain(t[0])] + Plains(t[1..]) == Plains(t);
    }
  }

  lemma IdentLexes(db: DbType, name: string, b: string)
    requires !db.Redis? && !StartsWith(b, IdentQuote(db)[0])
    ensures Tokens(db, QuoteIdentifier(db, name) + b) == Prefixed([Ident(name)], Tokens(db, b))
  {
    var text := QuoteIdentifier(db, name);
    IdentifierReadsBackIff(db, name, b);
    hide QuoteIdentifier, LexDoubled;
    var s := text + b;
    assert s[0] == text[0] && s[1..] == text[1..] + b;
  }

  lemma LiteralLexes(db: DbType, value: string, b: string)
    requires !db.Redis? && !StartsWith(b, '\'')
    ensures Tokens(db, "'" + Escaped(db, value) + "'" + b) == Prefixed([Literal(value)], Tokens(db, b))
  {
    LiteralReadsBackIff(db, value, b);
    hide Lex, Escaped;
    var s := "'" + Escaped(db, value) + "'" + b;
    assert s[0] == '\'' && s[1..] == Escaped(db, value) + "'" + b;
  }

  lemma {:induction false} DigitsOf(t: string, b: string)
    requires (forall i :: 0 <= i < |t| ==> IsDigit(t[i])) && !(b != [] && IsDigit(b[0]))
    ensures Digits(t + b) == |t|
  {
    if t == [] {
      assert t + b == b;
    } else {
      assert (t + b)[1..] == t[1..] + b;
      DigitsOf(t[1..], b);
    }
  }

  lemma MarkLexes(db: DbType, p: string, b: string)
    requires !db.Redis? && p != [] && !IsQuote(p[0]) && IsMark(db, p + b)
    requires |p| == if db.PostgreSql? then 1 + Digits((p + b)[1..]) else 1
    ensures Tokens(db, p + b) == Prefixed([Param(p)], Tokens(db, b))
  {
    hide Lex, LexDoubled, Digits;
    var s := p + b;
    assert s[..|p|] == p && s[|p|..] == b && s[0] == p[0];
  }

  lemma ParamLexes(db: DbType, n: nat, b: string)
    requires !db.Redis? && !(b != [] && IsDigit(b[0]))
    ensures Tokens(db, Placeholder(db, n) + b) == Prefixed([Param(Placeholder(db, n))], Tokens(db, b))
  {
    var p, digits := Placeholder(db, n), Decimal(n);
    assert forall i :: 0 <= i < |digits| ==> IsDigit(digits[i]);
    hide Decimal, Tokens, Digits;
    if db.PostgreSql? {
      assert p == "$" + digits && (p + b)[1..] == digits + b && (p + b)[1] == digits[0];
      DigitsOf(digits, b);
    }
    MarkLexes(db, p, b);
  }

  // ---- Texts that anything can follow ----

  /** The text is read alike whatever follows it, and holds no placeholder. */
  ghost predicate IsOpen(db: DbType, t: string)
    requires !db.Redis?
  {
    && Tokens(db, t).Some?
    && (forall i :: 0 <= i < |Tokens(db, t).value| ==> !Tokens(db, t).value[i].Param?)
    && forall b :: Tokens(db, t + b) == Prefixed(Tokens(db, t).value, Tokens(db, b))
  }

  lemma PlainIsOpen(db: DbType, t: string)
    requires !db.Redis? && IsPlain(t)
    ensures IsOpen(db, t)
  {
    PlainLexes(db, t, []);
    assert t + [] == t && Plains(t) + [] == Plains(t);
    forall b ensures Tokens(db, t + b) == Prefixed(Plains(t), Tokens(db, b)) {
      PlainLexes(db, t, b);
    }
  }

  lemma OpenThenOpen(db: DbType, t: string, u: string)
    requires !db.Redis? && IsOpen(db, t) && IsOpen(db, u)
    ensures IsOpen(db, t + u)
  {
    hide Tokens;
    var ts, us := Tokens(db, t).value, Tokens(db, u).value;
    forall b ensures Tokens(db, (t + u) + b) == Prefixed(ts + us, Tokens(db, b)) {
      assert (t + u) + b == t + (u + b);
      PrefixedTwice(ts, us, Tokens(db, b));
    }
    assert Tokens(db, t + u) == Some(ts + us);
  }

  lemma IdentThenOpen(db: DbType, name: string, t: string)
    requires !db.Redis? && IsOpen(db, t) && t != [] && !IsQuote(t[0])
    ensures IsOpen(db, QuoteIdentifier(db, name) + t)
  {
    hide Tokens, QuoteIdentifier;
    var q, ts := QuoteIdentifier(db, name), Tokens(db, t).value;
    forall b ensures Tokens(db, (q + t) + b) == Prefixed([Ident(name)] + ts, Tokens(db, b)) {
      assert (q + t) + b == q + (t + b) && (t + b)[0] == t[0];
      IdentLexes(db, name, t + b);
      PrefixedTwice([Ident(name)], ts, Tokens(db, b));
    }
    IdentLexes(db, name, t);
    assert Tokens(db, q + t) == Some([Ident(name)] + ts);
  }

  lemma {:induction false} NamesThenOpen(db: DbType, data: Data, t: string)
    requires !db.Redis? && IsOpen(db, t) && t != [] && !IsQuote(t[0])
    ensures IsOpen(db, Join(Names(db, data), ", ") + t)
    decreases |data|
  {
    hide IsOpen, QuoteIdentifier;
    var names := Names(db, data);
    if |data| == 0 {
      assert "" + t == t;
    } else if |data| == 1 {
      IdentThenOpen(db, data[0].0, t);
    } else {
      var rest := data[1..];
      assert names[1..] == Names(db, rest);
      NamesThenOpen(db, rest, t);
      PlainIsOpen(db, ", ");
      OpenThenOpen(db, ", ", Join(Names(db, rest), ", ") + t);
      IdentThenOpen(db, data[0].0, ", " + (Join(Names(db, rest), ", ") + t));
      assert names[0] + (", " + (Join(Names(db, rest), ", ") + t)) == Join(names, ", ") + t;
    }
  }

  // ---- The texts of the builders ----

  ghost predicate AllOpen(db: DbType, pieces: seq<Piece>)
    requires !db.Redis?
  {
    forall i :: 0 <= i < |pieces| && pieces[i].Text? ==> IsOpen(db, pieces[i].text)
  }

  lemma {:induction false} JoinIsOpen(db: DbType, parts: seq<seq<Piece>>)
    requires !db.Redis? && forall i :: 0 <= i < |parts| ==> AllOpen(db, parts[i])
    ensures AllOpen(db, JoinPieces(parts, ", "))
    decreases |parts|
  {
    hide IsOpen;
    PlainIsOpen(db, ", ");
    if |parts| > 1 {
      JoinIsOpen(db, parts[1..]);
      var rest := JoinPieces(parts[1..], ", ");
      assert JoinPieces(parts, ", ") == parts[0] + [Text(", ")] + rest;
    }
  }

  lemma DefaultsTexts()
    ensures IsPlain(" DEFAULT VALUES;") && IsPlain(" () VALUES ();")
  {
  }

  lemma InsertTexts()
    ensures IsPlain("INSERT INTO ") && IsPlain(" (") && IsPlain(") VALUES (") && IsPlain(");")
  {
  }

  lemma UpdateTexts()
    ensures IsPlain("UPDATE ") && IsPlain(" SET ") && IsPlain(" WHERE ") && IsPlain(" = ") && IsPlain(";")
  {
  }

  lemma DeleteTexts()
    ensures IsPlain("DELETE FROM ")
  {
  }

  lemma InsertDefaultsIsOpen(db: DbType, table: string)
    requires !db.Redis?
    ensures IsOpen(db, InsertDefaults(db, table))
  {
    hide IsOpen, QuoteIdentifier, IsPlain;
    DefaultsTexts();
    InsertTexts();
    var t := if db.PostgreSql? then " DEFAULT VALUES;" else " () VALUES ();";
    PlainIsOpen(db, t);
    PlainIsOpen(db, "INSERT INTO ");
    assert t[0] == ' ';
    IdentThenOpen(db, table, t);
    OpenThenOpen(db, "INSERT INTO ", QuoteIdentifier(db, table) + t);
    assert "INSERT INTO " + (QuoteIdentifier(db, table) + t) == InsertDefaults(db, table);
  }

  lemma InsertHeadIsOpen(db: DbType, table: string, data: Data)
    requires !db.Redis?
    ensures IsOpen(db, InsertHead(db, table, data))
  {
    hide IsOpen, QuoteIdentifier, Join, Names, IsPlain;
    InsertTexts();
    PlainIsOpen(db, "INSERT INTO ");
    PlainIsOpen(db, " (");
    PlainIsOpen(db, ") VALUES (");
    NamesThenOpen(db, data, ") VALUES (");
    var names := Join(Names(db, data), ", ") + ") VALUES (";
    OpenThenOpen(db, " (", names);
    assert (" (" + names)[0] == ' ';
    IdentThenOpen(db, table, " (" + names);
    OpenThenOpen(db, "INSERT INTO ", QuoteIdentifier(db, table) + (" (" + names));
    assert "INSERT INTO " + (QuoteIdentifier(db, table) + (" (" + names)) == InsertHead(db, table, data);
  }

  lemma AroundIdentIsOpen(db: DbType, head: string, name: string, tail: string)
    requires !db.Redis? && IsPlain(head) && IsPlain(tail) && tail != [] && !IsQuote(tail[0])
    ensures IsOpen(db, head + QuoteIdentifier(db, name) + tail)
  {
    hide IsOpen, QuoteIdentifier, IsPlain;
    PlainIsOpen(db, head);
    PlainIsOpen(db, tail);
    IdentThenOpen(db, name, tail);
    OpenThenOpen(db, head, QuoteIdentifier(db, name) + tail);
    assert head + (QuoteIdentifier(db, name) + tail) == head + QuoteIdentifier(db, name) + tail;
  }

  lemma SetPartsAreOpen(db: DbType, data: Data)
    requires !db.Redis?
    ensures forall i :: 0 <= i < |data| ==> AllOpen(db, SetParts(db, data)[i])
  {
    hide IsOpen;
    forall i | 0 <= i < |data| ensures AllOpen(db, SetParts(db, data)[i]) {
      AroundIdentIsOpen(db, "", data[i].0, " = ");
      assert "" + QuoteIdentifier(db, data[i].0) + " = " == QuoteIdentifier(db, data[i].0) + " = ";
    }
  }

  // ---- Whole statements ----

  /** What stands for a value in a rendered statement. */
  function ValueTokens(db: DbType, v: Value): seq<Token> {
    match v
    case Str(s) => [Literal(s)]
    case Other(text) => [Literal(text)]
    case _ => Plains(Format(db, v))
  }

  /** Numbers print without quotes and placeholder signs. */
  predicate PlainNumbers(args: seq<Value>) {
    forall i :: 0 <= i < |args| && args[i].Float? ==> IsPlain(args[i].text)
  }

  /** The tokens of a statement, given those of its holes. */
  function Filled(db: DbType, pieces: seq<Piece>, hole: nat -> seq<Token>): seq<Token>
    requires !db.Redis?
  {
    if pieces == [] then []
    else
      (match pieces[0]
       case Text(text) => if Tokens(db, text).Some? then Tokens(db, text).value else []
       case Hole(n) => hole(n))
      + Filled(db, pieces[1..], hole)
  }

  function Marks(db: DbType): nat -> seq<Token> {
    (n: nat) => [Param(Placeholder(db, n))]
  }

  function Bound(db: DbType, args: seq<Value>): nat -> seq<Token> {
    (n: nat) => if 1 <= n <= |args| then ValueTokens(db, args[n - 1]) else []
  }

  lemma SoftAfter(db: DbType, pieces: seq<Piece>, text: string)
    requires pieces != [] && Stops(pieces[0]) && |text| >= |pieces[0].text| && text[..|pieces[0].text|] == pieces[0].text
    ensures text != [] && IsSoft(text[0])
  {
    assert text[0] == pieces[0].text[0];
  }

  /** The prepared text reads as its pieces, each hole as its placeholder. */
  lemma {:induction false} SqlLexes(db: DbType, pieces: seq<Piece>)
    requires !db.Redis? && AllOpen(db, pieces) && Fenced(pieces, false)
    ensures Tokens(db, Sql(db, pieces)) == Some(Filled(db, pieces, Marks(db)))
    decreases |pieces|
  {
    if pieces != [] {
      var rest := pieces[1..];
      SqlLexes(db, rest);
      if pieces[0].Hole? {
        assert Sql(db, rest)[..|rest[0].text|] == rest[0].text;
        SoftAfter(db, rest, Sql(db, rest));
        hide Tokens, AllOpen, Fenced;
        ParamLexes(db, pieces[0].n, Sql(db, rest));
      } else {
        assert IsOpen(db, pieces[0].text);
        hide Tokens, AllOpen, Fenced;
      }
    }
  }

  lemma ValueLexes(db: DbType, v: Value, b: string)
    requires !db.Redis? && (v.Float? ==> IsPlain(v.text)) && b != [] && IsSoft(b[0])
    ensures Tokens(db, Format(db, v) + b) == Prefixed(ValueTokens(db, v), Tokens(db, b))
  {
    hide Tokens, Escaped;
    match v {
      case Str(s) => LiteralLexes(db, s, b);
      case Other(text) => LiteralLexes(db, text, b);
      case Int(n) =>
        NumbersArePlain(n);
        PlainLexes(db, ShowInt(n), b);
      case Null => PlainLexes(db, "NULL", b);
      case Float(text) => PlainLexes(db, text, b);
      case Bool(_) => PlainLexes(db, Format(db, v), b);
    }
  }

  lemma NumbersArePlain(n: int)
    ensures IsPlain(ShowInt(n))
  {
    var digits := Decimal(if n < 0 then -n else n);
    assert forall i :: 0 <= i < |digits| ==> IsDigit(digits[i]);
    hide Decimal;
  }

  /** The rendered text reads as the same pieces, each hole as the value bound to it. */
  lemma {:induction false} FillLexes(db: DbType, pieces: seq<Piece>, args: seq<Value>)
    requires !db.Redis? && AllOpen(db, pieces) && Fenced(pieces, false) && PlainNumbers(args)
    requires forall i :: 0 <= i < |pieces| && pieces[i].Hole? ==> 1 <= pieces[i].n <= |args|
    ensures Tokens(db, Fill(db, pieces, args)) == Some(Filled(db, pieces, Bound(db, args)))
    decreases |pieces|
  {
    hide Tokens, Format, IsOpen;
    if pieces == [] {
      NothingLexes(db);
    } else {
      var rest := pieces[1..];
      FillLexes(db, rest, args);
      if pieces[0].Hole? {
        assert Fill(db, rest, args)[..|rest[0].text|] == rest[0].text;
        SoftAfter(db, rest, Fill(db, rest, args));
        ValueLexes(db, args[pieces[0].n - 1], Fill(db, rest, args));
      } else {
        OpenThen(db, pieces[0].text, Fill(db, rest, args));
      }
    }
  }

  lemma NothingLexes(db: DbType)
    requires !db.Redis?
    ensures Tokens(db, "") == Some([])
  {
  }

  lemma OpenThen(db: DbType, t: string, b: string)
    requires !db.Redis? && IsOpen(db, t)
    ensures Tokens(db, t).Some? && Tokens(db, t + b) == Prefixed(Tokens(db, t).value, Tokens(db, b))
  {
    hide Tokens;
  }

  /** The placeholders among the tokens, in order. */
  function Labels(ts: seq<Token>): seq<string> {
    if ts == [] then []
    else (if ts[0].Param? then [ts[0].text] else []) + Labels(ts[1..])
  }

  lemma {:induction false} LabelsAppend(a: seq<Token>, b: seq<Token>)
    ensures Labels(a + b) == Labels(a) + Labels(b)
  {
    if a == [] {
      assert a + b == b;
    } else {
      assert (a + b)[1..] == a[1..] + b && (a + b)[0] == a[0];
      LabelsAppend(a[1..], b);
    }
  }

  lemma {:induction false} NoLabels(ts: seq<Token>)
    requires forall i :: 0 <= i < |ts| ==> !ts[i].Param?
    ensures Labels(ts) == []
  {
    if ts != [] {
      NoLabels(ts[1..]);
    }
  }

  function Placeholders(db: DbType, holes: seq<nat>): seq<string> {
    seq(|holes|, i requires 0 <= i < |holes| => Placeholder(db, holes[i]))
  }

  lemma LabelsOfPiece(db: DbType, piece: Piece)
    requires !db.Redis? && AllOpen(db, [piece])
    ensures Labels(Filled(db, [piece], Marks(db))) == Placeholders(db, Holes([piece]))
  {
    assert [piece][0] == piece && [piece][1..] == [];
    hide Tokens, Placeholder;
    if piece.Hole? {
      var mark := Param(Placeholder(db, piece.n));
      assert Filled(db, [piece], Marks(db)) == [mark] + [];
      assert [mark] + [] == [mark] && [mark][1..] == [];
      assert Labels([mark]) == [mark.text] + Labels([]);
      assert Holes([piece]) == [piece.n] + [];
    } else {
      var ts := Tokens(db, piece.text).value;
      assert IsOpen(db, piece.text);
      assert Filled(db, [piece], Marks(db)) == ts + [] && ts + [] == ts;
      assert Holes([piece]) == [] + [];
      NoLabels(ts);
    }
  }

  lemma HeadFilled(db: DbType, pieces: seq<Piece>, hole: nat -> seq<Token>)
    requires !db.Redis? && pieces != []
    ensures Filled(db, pieces, hole) == Filled(db, [pieces[0]], hole) + Filled(db, pieces[1..], hole)
  {
    hide Tokens;
    var first := match pieces[0]
                 case Text(text) => if Tokens(db, text).Some? then Tokens(db, text).value else []
                 case Hole(n) => hole(n);
    assert [pieces[0]][0] == pieces[0] && [pieces[0]][1..] == [];
    assert Filled(db, [pieces[0]], hole) == first + [] && first + [] == first;
  }

  lemma HeadHoles(pieces: seq<Piece>)
    requires pieces != []
    ensures Holes(pieces) == Holes([pieces[0]]) + Holes(pieces[1..])
  {
    assert [pieces[0]][1..] == [];
  }

  lemma PlaceholdersAppend(db: DbType, a: seq<nat>, b: seq<nat>)
    ensures Placeholders(db, a + b) == Placeholders(db, a) + Placeholders(db, b)
  {
    hide Placeholder;
  }

  lemma {:induction false} LabelsAreHoles(db: DbType, pieces: seq<Piece>)
    requires !db.Redis? && AllOpen(db, pieces)
    ensures Labels(Filled(db, pieces, Marks(db))) == Placeholders(db, Holes(pieces))
    decreases |pieces|
  {
    hide IsOpen, Tokens, Placeholder, Marks;
    if pieces != [] {
      hide Filled, Labels, Holes, Placeholders;
      LabelsAreHoles(db, pieces[1..]);
      HeadFilled(db, pieces, Marks(db));
      HeadHoles(pieces);
      LabelsOfPiece(db, pieces[0]);
      LabelsAppend(Filled(db, [pieces[0]], Marks(db)), Filled(db, pieces[1..], Marks(db)));
      PlaceholdersAppend(db, Holes([pieces[0]]), Holes(pieces[1..]));
    }
  }

  /**
   What a prepared statement promises: its text holds exactly the placeholders 1 to n in
   order, n being the number of arguments, and the rendered text reads token for token as
   the prepared one with each placeholder replaced by the value bound to it, a string by
   one literal with this very value.
   */
  ghost predicate ReadsRight(db: DbType, p: Prepared, text: string)
    requires !db.Redis?
  {
    && Tokens(db, Sql(db, p.pieces)) == Some(Filled(db, p.pieces, Marks(db)))
    && Labels(Filled(db, p.pieces, Marks(db))) == Placeholders(db, UpTo(|p.args|))
    && (PlainNumbers(p.args) ==> Tokens(db, text) == Some(Filled(db, p.pieces, Bound(db, p.args))))
  }

  lemma {:induction false} HolesAre(pieces: seq<Piece>, i: nat)
    requires i < |pieces| && pieces[i].Hole?
    ensures pieces[i].n in Holes(pieces)
  {
    if i > 0 {
      HolesAre(pieces[1..], i - 1);
    }
  }

  lemma StatementReadsRight(db: DbType, p: Prepared, text: string)
    requires !db.Redis? && AllOpen(db, p.pieces) && Fenced(p.pieces, false)
    requires Agree(db, Ok(text), Ok(p))
    ensures ReadsRight(db, p, text)
  {
    SqlLexes(db, p.pieces);
    LabelsAreHoles(db, p.pieces);
    forall i | 0 <= i < |p.pieces| && p.pieces[i].Hole? ensures 1 <= p.pieces[i].n <= |p.args| {
      HolesAre(p.pieces, i);
    }
    if PlainNumbers(p.args) {
      FillLexes(db, p.pieces, p.args);
    }
  }

  lemma InsertReadsRight(db: DbType, table: string, data: Data, info: Option<seq<Column>>)
    requires !db.Redis? && InsertParams(db, table, data, info).Ok?
    ensures Insert(db, table, data, info).Ok?
    ensures ReadsRight(db, InsertParams(db, table, data, info).value, Insert(db, table, data, info).value)
  {
    hide *;
    InsertTexts();
    PlainIsOpen(db, ");");
    InsertPieces(db, table, data, info);
    InsertAgrees(db, table, data, info);
    InsertIsFenced(db, table, data, info);
    AgreeMeansBoth(db, Insert(db, table, data, info), InsertParams(db, table, data, info));
    StatementReadsRight(db, InsertParams(db, table, data, info).value, Insert(db, table, data, info).value);
  }

  lemma AgreeMeansBoth(db: DbType, r: Result<string>, p: Result<Prepared>)
    requires Agree(db, r, p) && p.Ok?
    ensures r.Ok? && Agree(db, Ok(r.value), Ok(p.value))
  {
  }

  lemma InsertPieces(db: DbType, table: string, data: Data, info: Option<seq<Column>>)
    requires !db.Redis? && InsertParams(db, table, data, info).Ok?
    ensures AllOpen(db, InsertParams(db, table, data, info).value.pieces)
  {
    hide IsOpen, Filter, JoinPieces, InsertHead, InsertDefaults, IsTableName, BadName, IsPlain;
    var kept := Filter(data, IsKept(info));
    InsertTexts();
    PlainIsOpen(db, ");");
    InsertDefaultsIsOpen(db, table);
    InsertHeadIsOpen(db, table, kept);
    JoinIsOpen(db, HoleParts(|kept|));
  }

  lemma UpdateReadsRight(db: DbType, table: string, data: Data, key: string, keyValue: Value)
    requires !db.Redis? && UpdateParams(db, table, data, key, keyValue).Ok?
    ensures Update(db, table, data, key, keyValue).Ok?
    ensures ReadsRight(db, UpdateParams(db, table, data, key, keyValue).value, Update(db, table, data, key, keyValue).value)
  {
    hide *;
    UpdatePieces(db, table, data, key, keyValue);
    UpdateAgrees(db, table, data, key, keyValue);
    UpdateIsFenced(db, table, data, key, keyValue);
    AgreeMeansBoth(db, Update(db, table, data, key, keyValue), UpdateParams(db, table, data, key, keyValue));
    StatementReadsRight(db, UpdateParams(db, table, data, key, keyValue).value, Update(db, table, data, key, keyValue).value);
  }

  lemma UpdatePieces(db: DbType, table: string, data: Data, key: string, keyValue: Value)
    requires !db.Redis? && UpdateParams(db, table, data, key, keyValue).Ok?
    ensures AllOpen(db, UpdateParams(db, table, data, key, keyValue).value.pieces)
  {
    hide IsOpen, Filter, JoinPieces, IsPlain, UpdateError, QuoteIdentifier, SetParts;
    var rest := Filter(data, NotKey(key));
    UpdateTexts();
    AroundIdentIsOpen(db, "UPDATE ", table, " SET ");
    AroundIdentIsOpen(db, " WHERE ", key, " = ");
    PlainIsOpen(db, ";");
    SetPartsAreOpen(db, rest);
    SetPartsLength(db, rest);
    JoinIsOpen(db, SetParts(db, rest));
  }

  lemma SetPartsLength(db: DbType, data: Data)
    ensures |SetParts(db, data)| == |data|
  {
  }

  lemma DeleteReadsRight(db: DbType, table: string, key: string, keyValue: Value)
    requires !db.Redis? && DeleteParams(db, table, key, keyValue).Ok?
    ensures Delete(db, table, key, keyValue).Ok?
    ensures ReadsRight(db, DeleteParams(db, table, key, keyValue).value, Delete(db, table, key, keyValue).value)
  {
    hide *;
    DeletePieces(db, table, key, keyValue);
    DeleteAgrees(db, table, key, keyValue);
    DeleteIsFenced(db, table, key, keyValue);
    AgreeMeansBoth(db, Delete(db, table, key, keyValue), DeleteParams(db, table, key, keyValue));
    StatementReadsRight(db, DeleteParams(db, table, key, keyValue).value, Delete(db, table, key, keyValue).value);
  }

  lemma DeletePieces(db: DbType, table: string, key: string, keyValue: Value)
    requires !db.Redis? && DeleteParams(db, table, key, keyValue).Ok?
    ensures AllOpen(db, DeleteParams(db, table, key, keyValue).value.pieces)
  {
    hide IsOpen, IsPlain, DeleteError, QuoteIdentifier;
    DeleteTexts();
    UpdateTexts();
    PlainIsOpen(db, "DELETE FROM ");
    PlainIsOpen(db, ";");
    AroundIdentIsOpen(db, " WHERE ", key, " = ");
    var tail := " WHERE " + QuoteIdentifier(db, key) + " = ";
    assert tail[0] == ' ';
    IdentThenOpen(db, table, tail);
    OpenThenOpen(db, "DELETE FROM ", QuoteIdentifier(db, table) + tail);
    assert "DELETE FROM " + (QuoteIdentifier(db, table) + tail) == DeleteHead(db, table, key);
  }
}
