/**
 What the statements of the builders in internal/domain/database/sql_builder.go say to a
 server: which table, which columns, and which value goes to which column.
 */
module SqlMeaning {
  import opened Common
  import opened SqlEscape
  import opened SqlBuilder
  import opened SqlTokens

  // ---- Names and values ----

  /** Which names are let through. */
  lemma NamesIff(s: string)
    ensures IsTableName(s) <==>
              1 <= |s| <= 64 && !('0' <= s[0] <= '9')
              && forall i :: 0 <= i < |s| ==>
                   'a' <= s[i] <= 'z' || 'A' <= s[i] <= 'Z' || '0' <= s[i] <= '9' || s[i] == '_'
    ensures IsColumnName(s) <==>
              1 <= |s| <= 64
              && forall i :: 0 <= i < |s| ==>
                   'a' <= s[i] <= 'z' || 'A' <= s[i] <= 'Z' || '0' <= s[i] <= '9' || s[i] == '_' || s[i] == '-'
  {
  }

  /** How values other than strings are written. */
  lemma ValuesPrint(db: DbType, n: int, text: string)
    ensures Format(db, Null) == "NULL" && Format(db, Float(text)) == text
    ensures Format(db, Bool(true)) == (if db.MySql? then "1" else "true")
    ensures Format(db, Bool(false)) == (if db.MySql? then "0" else "false")
    ensures n >= 0 ==>
              (forall i | 0 <= i < |Format(db, Int(n))| :: IsDigit(Format(db, Int(n))[i])) && Number(Format(db, Int(n))) == n
    ensures n < 0 ==> Format(db, Int(n)) == "-" + Format(db, Int(-n))
  {
    if n >= 0 {
      NumberOfDecimal(n);
    }
  }

  // ---- Statements, token by token ----

  function JoinTokens(parts: seq<seq<Token>>, sep: seq<Token>): seq<Token> {
    if parts == [] then [] else if |parts| == 1 then parts[0] else parts[0] + sep + JoinTokens(parts[1..], sep)
  }

  function Idents(data: Data): seq<seq<Token>> {
    seq(|data|, i requires 0 <= i < |data| => [Ident(data[i].0)])
  }

  function HoleTokens(n: nat, hole: nat -> seq<Token>): seq<seq<Token>> {
    seq(n, i requires 0 <= i < n => hole(i + 1))
  }

  function Assignments(data: Data, hole: nat -> seq<Token>): seq<seq<Token>> {
    seq(|data|, i requires 0 <= i < |data| => [Ident(data[i].0)] + Plains(" = ") + hole(i + 1))
  }

  /** `INSERT INTO table (columns) VALUES (holes);`, the i-th hole for the i-th column. */
  function InsertShape(table: string, data: Data, hole: nat -> seq<Token>): seq<Token> {
    Plains("INSERT INTO ") + [Ident(table)] + Plains(" (") + JoinTokens(Idents(data), Plains(", "))
    + Plains(") VALUES (") + JoinTokens(HoleTokens(|data|, hole), Plains(", ")) + Plains(");")
  }

  function DefaultsShape(db: DbType, table: string): seq<Token> {
    Plains("INSERT INTO ") + [Ident(table)] + Plains(if db.PostgreSql? then " DEFAULT VALUES;" else " () VALUES ();")
  }

  /** `UPDATE table SET column = hole, ... WHERE key = hole;`. */
  function UpdateShape(table: string, data: Data, key: string, hole: nat -> seq<Token>): seq<Token> {
    Plains("UPDATE ") + [Ident(table)] + Plains(" SET ") + JoinTokens(Assignments(data, hole), Plains(", "))
    + Plains(" WHERE ") + [Ident(key)] + Plains(" = ") + hole(|data| + 1) + Plains(";")
  }

  /** `DELETE FROM table WHERE key = hole;`. */
  function DeleteShape(table: string, key: string, hole: nat -> seq<Token>): seq<Token> {
    Plains("DELETE FROM ") + [Ident(table)] + Plains(" WHERE ") + [Ident(key)] + Plains(" = ") + hole(1) + Plains(";")
  }

  // ---- Texts and their tokens ----

  lemma NamesLex(db: DbType, data: Data, b: string)
    requires !db.Redis? && b != [] && !IsQuote(b[0])
    ensures Tokens(db, Join(Names(db, data), ", ") + b) == Prefixed(JoinTokens(Idents(data), Plains(", ")), Tokens(db, b))
    decreases |data|
  {
    hide Tokens, QuoteIdentifier, Plains;
    var names := Names(db, data);
    if |data| == 0 {
      assert "" + b == b;
      PrefixedTwice([], [], Tokens(db, b));
    } else if |data| == 1 {
      IdentLexes(db, data[0].0, b);
    } else {
      var rest := data[1..];
      assert names[1..] == Names(db, rest) && Idents(data)[1..] == Idents(rest);
      var more := Join(Names(db, rest), ", ") + b;
      NamesLex(db, rest, b);
      PlainLexes(db, ", ", more);
      IdentLexes(db, data[0].0, ", " + more);
      var cols := JoinTokens(Idents(rest), Plains(", "));
      PrefixedTwice(Plains(", "), cols, Tokens(db, b));
      PrefixedTwice([Ident(data[0].0)], Plains(", ") + cols, Tokens(db, b));
      assert [Ident(data[0].0)] + (Plains(", ") + cols) == [Ident(data[0].0)] + Plains(", ") + cols;
      assert names[0] + (", " + more) == Join(names, ", ") + b;
    }
  }

  /** Plain text, a quoted name, and what follows. */
  lemma AroundIdentLexes(db: DbType, head: string, name: string, b: string)
    requires !db.Redis? && IsPlain(head) && b != [] && !IsQuote(b[0])
    ensures Tokens(db, head + QuoteIdentifier(db, name) + b) == Prefixed(Plains(head) + [Ident(name)], Tokens(db, b))
  {
    hide Tokens, QuoteIdentifier, Plains, IsPlain;
    IdentLexes(db, name, b);
    PlainLexes(db, head, QuoteIdentifier(db, name) + b);
    PrefixedTwice(Plains(head), [Ident(name)], Tokens(db, b));
    assert head + QuoteIdentifier(db, name) + b == head + (QuoteIdentifier(db, name) + b);
  }

  lemma PlainTokens(db: DbType, t: string)
    requires !db.Redis? && IsPlain(t)
    ensures Tokens(db, t) == Some(Plains(t))
  {
    PlainLexes(db, t, []);
    NothingLexes(db);
    assert t + [] == t && Plains(t) + [] == Plains(t);
  }

  lemma InsertHeadTokens(db: DbType, table: string, data: Data)
    requires !db.Redis?
    ensures Tokens(db, InsertHead(db, table, data))
         == Some(Plains("INSERT INTO ") + [Ident(table)] + Plains(" (") + JoinTokens(Idents(data), Plains(", "))
                 + Plains(") VALUES ("))
  {
    InsertTexts();
    hide Tokens, QuoteIdentifier, Plains, IsPlain, Join, JoinTokens;
    var names, cols := Join(Names(db, data), ", "), JoinTokens(Idents(data), Plains(", "));
    PlainTokens(db, ") VALUES (");
    NamesLex(db, data, ") VALUES (");
    PlainLexes(db, " (", names + ") VALUES (");
    var tail := " (" + (names + ") VALUES (");
    assert tail[0] == ' ';
    AroundIdentLexes(db, "INSERT INTO ", table, tail);
    assert "INSERT INTO " + QuoteIdentifier(db, table) + tail == InsertHead(db, table, data);
    assert Plains("INSERT INTO ") + [Ident(table)] + (Plains(" (") + (cols + Plains(") VALUES (")))
        == Plains("INSERT INTO ") + [Ident(table)] + Plains(" (") + cols + Plains(") VALUES (");
  }

  lemma IdentBetween(db: DbType, head: string, name: string, tail: string)
    requires !db.Redis? && IsPlain(head) && IsPlain(tail) && tail != [] && !IsQuote(tail[0])
    ensures Tokens(db, head + QuoteIdentifier(db, name) + tail) == Some(Plains(head) + [Ident(name)] + Plains(tail))
  {
    hide Tokens, QuoteIdentifier, Plains, IsPlain;
    PlainTokens(db, tail);
    AroundIdentLexes(db, head, name, tail);
  }

  // ---- Pieces and their tokens ----

  lemma {:induction false} FilledAppend(db: DbType, a: seq<Piece>, b: seq<Piece>, hole: nat -> seq<Token>)
    requires !db.Redis?
    ensures Filled(db, a + b, hole) == Filled(db, a, hole) + Filled(db, b, hole)
    decreases |a|
  {
    hide Tokens;
    if a == [] {
      assert a + b == b && [] + Filled(db, b, hole) == Filled(db, b, hole);
    } else {
      assert (a + b)[1..] == a[1..] + b && (a + b)[0] == a[0];
      FilledAppend(db, a[1..], b, hole);
    }
  }

  lemma FilledText(db: DbType, t: string, ts: seq<Token>, hole: nat -> seq<Token>)
    requires !db.Redis? && Tokens(db, t) == Some(ts)
    ensures Filled(db, [Text(t)], hole) == ts
  {
    hide Tokens;
    assert [Text(t)][1..] == [] && ts + [] == ts;
  }

  lemma FilledHole(db: DbType, n: nat, hole: nat -> seq<Token>)
    requires !db.Redis?
    ensures Filled(db, [Hole(n)], hole) == hole(n)
  {
    assert [Hole(n)][1..] == [] && hole(n) + [] == hole(n);
  }

  lemma {:induction false} FilledJoin(db: DbType, parts: seq<seq<Piece>>, hole: nat -> seq<Token>, tokens: seq<seq<Token>>)
    requires !db.Redis? && |tokens| == |parts| && forall i :: 0 <= i < |parts| ==> Filled(db, parts[i], hole) == tokens[i]
    ensures Filled(db, JoinPieces(parts, ", "), hole) == JoinTokens(tokens, Plains(", "))
    decreases |parts|
  {
    hide Tokens, Plains;
    if |parts| > 1 {
      assert IsPlain(", ");
      PlainTokens(db, ", ");
      FilledText(db, ", ", Plains(", "), hole);
      hide Filled;
      var rest := JoinPieces(parts[1..], ", ");
      FilledJoin(db, parts[1..], hole, tokens[1..]);
      FilledAppend(db, parts[0] + [Text(", ")], rest, hole);
      FilledAppend(db, parts[0], [Text(", ")], hole);
    }
  }

  /** Text, joined parts, text. */
  lemma FilledFrame(db: DbType, head: string, hs: seq<Token>, parts: seq<seq<Piece>>, tail: string, ts: seq<Token>,
                    hole: nat -> seq<Token>, tokens: seq<seq<Token>>)
    requires !db.Redis? && Tokens(db, head) == Some(hs) && Tokens(db, tail) == Some(ts)
    requires |tokens| == |parts| && forall i :: 0 <= i < |parts| ==> Filled(db, parts[i], hole) == tokens[i]
    ensures Filled(db, [Text(head)] + JoinPieces(parts, ", ") + [Text(tail)], hole)
         == hs + JoinTokens(tokens, Plains(", ")) + ts
  {
    hide Tokens, Filled, JoinPieces, JoinTokens;
    FilledText(db, head, hs, hole);
    FilledText(db, tail, ts, hole);
    FilledJoin(db, parts, hole, tokens);
    FilledAppend(db, [Text(head)] + JoinPieces(parts, ", "), [Text(tail)], hole);
    FilledAppend(db, [Text(head)], JoinPieces(parts, ", "), hole);
  }

  // ---- What the statements say ----

  /** The columns that go into an INSERT: all but the auto-increment ones left empty. */
  lemma KeptColumns(data: Data, info: Option<seq<Column>>, c: (string, Value))
    ensures c in Filter(data, IsKept(info)) <==>
              c in data && !(info.Some? && (c.1 == Null || c.1 == Str(""))
                             && exists i :: 0 <= i < |info.value| && info.value[i].name == c.0 && info.value[i].autoIncrement)
  {
    FilterMembers(data, IsKept(info));
  }

  lemma InsertFilled(db: DbType, table: string, data: Data, info: Option<seq<Column>>, hole: nat -> seq<Token>)
    requires !db.Redis? && InsertParams(db, table, data, info).Ok?
    ensures var kept := Filter(data, IsKept(info));
            Filled(db, InsertParams(db, table, data, info).value.pieces, hole)
            == if kept == [] then DefaultsShape(db, table) else InsertShape(table, kept, hole)
  {
    var kept := Filter(data, IsKept(info));
    hide Tokens, Filled, JoinPieces, JoinTokens, Filter, Plains, IsTableName, BadName, InsertHead, QuoteIdentifier;
    InsertTexts();
    if kept == [] {
      DefaultsTexts();
      var tail := if db.PostgreSql? then " DEFAULT VALUES;" else " () VALUES ();";
      assert tail[0] == ' ';
      IdentBetween(db, "INSERT INTO ", table, tail);
      FilledText(db, InsertDefaults(db, table), DefaultsShape(db, table), hole);
    } else {
      InsertHeadTokens(db, table, kept);
      PlainTokens(db, ");");
      var parts, tokens := HoleParts(|kept|), HoleTokens(|kept|, hole);
      forall i | 0 <= i < |kept| ensures Filled(db, parts[i], hole) == tokens[i] {
        FilledHole(db, i + 1, hole);
      }
      var hs := Plains("INSERT INTO ") + [Ident(table)] + Plains(" (") + JoinTokens(Idents(kept), Plains(", ")) + Plains(") VALUES (");
      FilledFrame(db, InsertHead(db, table, kept), hs, parts, ");", Plains(");"), hole, tokens);
    }
  }

  /**
   What an INSERT says: into this table, into these columns, the i-th placeholder into the
   i-th of them, and the i-th argument is that column's value; the rendered text says the
   same with the values in place.
   */
  lemma InsertMeans(db: DbType, table: string, data: Data, info: Option<seq<Column>>)
    requires !db.Redis? && InsertParams(db, table, data, info).Ok?
    ensures var kept, p := Filter(data, IsKept(info)), InsertParams(db, table, data, info).value;
            && |p.args| == |kept| && (forall i :: 0 <= i < |kept| ==> p.args[i] == kept[i].1)
            && Tokens(db, Sql(db, p.pieces))
               == Some(if kept == [] then DefaultsShape(db, table) else InsertShape(table, kept, Marks(db)))
            && Insert(db, table, data, info).Ok?
            && (PlainNumbers(p.args) ==>
                  Tokens(db, Insert(db, table, data, info).value)
                  == Some(if kept == [] then DefaultsShape(db, table) else InsertShape(table, kept, Bound(db, p.args))))
  {
    InsertReadsRight(db, table, data, info);
    InsertFilled(db, table, data, info, Marks(db));
    InsertFilled(db, table, data, info, Bound(db, InsertParams(db, table, data, info).value.args));
    hide Tokens, Filled, JoinPieces, InsertShape, DefaultsShape, Filter, IsTableName, BadName, Sql;
  }

  lemma UpdateFilled(db: DbType, table: string, data: Data, key: string, keyValue: Value, hole: nat -> seq<Token>)
    requires !db.Redis? && UpdateParams(db, table, data, key, keyValue).Ok?
    ensures Filled(db, UpdateParams(db, table, data, key, keyValue).value.pieces, hole)
         == UpdateShape(table, Filter(data, NotKey(key)), key, hole)
  {
    var rest := Filter(data, NotKey(key));
    UpdateTexts();
    hide Tokens, Filled, JoinPieces, JoinTokens, Filter, Plains, IsPlain, UpdateError, QuoteIdentifier;
    IdentBetween(db, "UPDATE ", table, " SET ");
    IdentBetween(db, " WHERE ", key, " = ");
    PlainTokens(db, ";");
    var parts, tokens := SetParts(db, rest), Assignments(rest, hole);
    forall i | 0 <= i < |rest| ensures Filled(db, parts[i], hole) == tokens[i] {
      EmptyPlains();
      IdentBetween(db, "", rest[i].0, " = ");
      var text := QuoteIdentifier(db, rest[i].0) + " = ";
      assert "" + QuoteIdentifier(db, rest[i].0) + " = " == text;
      assert [] + [Ident(rest[i].0)] + Plains(" = ") == [Ident(rest[i].0)] + Plains(" = ");
      FilledText(db, text, [Ident(rest[i].0)] + Plains(" = "), hole);
      FilledHole(db, i + 1, hole);
      FilledAppend(db, [Text(text)], [Hole(i + 1)], hole);
      assert [Text(text)] + [Hole(i + 1)] == parts[i];
    }
    var hs, ts := Plains("UPDATE ") + [Ident(table)] + Plains(" SET "), Plains(" WHERE ") + [Ident(key)] + Plains(" = ");
    FilledFrame(db, UpdateHead(db, table), hs, parts, UpdateTail(db, key), ts, hole, tokens);
    var front, n := [Text(UpdateHead(db, table))] + JoinPieces(parts, ", ") + [Text(UpdateTail(db, key))], |rest| + 1;
    EndFilled(db, n, hole);
    FilledAppend(db, front, [Hole(n), Text(";")], hole);
    assert hs + JoinTokens(tokens, Plains(", ")) + ts + (hole(n) + Plains(";"))
        == UpdateShape(table, rest, key, hole);
  }

  lemma EmptyPlains()
    ensures Plains("") == [] && IsPlain("")
  {
  }

  lemma EndFilled(db: DbType, n: nat, hole: nat -> seq<Token>)
    requires !db.Redis?
    ensures Filled(db, [Hole(n), Text(";")], hole) == hole(n) + Plains(";")
  {
    UpdateTexts();
    PlainTokens(db, ";");
    FilledText(db, ";", Plains(";"), hole);
    FilledHole(db, n, hole);
    hide Filled, Tokens, Plains;
    FilledAppend(db, [Hole(n)], [Text(";")], hole);
    assert [Hole(n)] + [Text(";")] == [Hole(n), Text(";")];
  }

  /**
   What an UPDATE says: in this table, to each column but the key its own value, where the
   key has the given one.
   */
  lemma UpdateMeans(db: DbType, table: string, data: Data, key: string, keyValue: Value)
    requires !db.Redis? && UpdateParams(db, table, data, key, keyValue).Ok?
    ensures var rest, p := Filter(data, NotKey(key)), UpdateParams(db, table, data, key, keyValue).value;
            && (forall c :: c in rest <==> c in data && c.0 != key)
            && |p.args| == |rest| + 1 && (forall i :: 0 <= i < |rest| ==> p.args[i] == rest[i].1) && p.args[|rest|] == keyValue
            && Tokens(db, Sql(db, p.pieces)) == Some(UpdateShape(table, rest, key, Marks(db)))
            && Update(db, table, data, key, keyValue).Ok?
            && (PlainNumbers(p.args) ==>
                  Tokens(db, Update(db, table, data, key, keyValue).value)
                  == Some(UpdateShape(table, rest, key, Bound(db, p.args))))
  {
    UpdateReadsRight(db, table, data, key, keyValue);
    UpdateFilled(db, table, data, key, keyValue, Marks(db));
    UpdateFilled(db, table, data, key, keyValue, Bound(db, UpdateParams(db, table, data, key, keyValue).value.args));
    FilterMembers(data, NotKey(key));
    hide Tokens, Filled, JoinPieces, UpdateShape, Filter, UpdateError, Sql;
  }

  lemma DeleteFilled(db: DbType, table: string, key: string, keyValue: Value, hole: nat -> seq<Token>)
    requires !db.Redis? && DeleteParams(db, table, key, keyValue).Ok?
    ensures Filled(db, DeleteParams(db, table, key, keyValue).value.pieces, hole) == DeleteShape(table, key, hole)
  {
    DeleteTexts();
    UpdateTexts();
    hide Tokens, Filled, Plains, IsPlain, DeleteError, QuoteIdentifier;
    IdentBetween(db, " WHERE ", key, " = ");
    var tail := " WHERE " + QuoteIdentifier(db, key) + " = ";
    assert tail[0] == ' ';
    AroundIdentLexes(db, "DELETE FROM ", table, tail);
    assert "DELETE FROM " + QuoteIdentifier(db, table) + tail == DeleteHead(db, table, key);
    var hs := Plains("DELETE FROM ") + [Ident(table)] + (Plains(" WHERE ") + [Ident(key)] + Plains(" = "));
    FilledText(db, DeleteHead(db, table, key), hs, hole);
    EndFilled(db, 1, hole);
    FilledAppend(db, [Text(DeleteHead(db, table, key))], [Hole(1), Text(";")], hole);
    assert hs + (hole(1) + Plains(";")) == DeleteShape(table, key, hole);
  }

  /** What a DELETE says: from this table, where the key has the given value. */
  lemma DeleteMeans(db: DbType, table: string, key: string, keyValue: Value)
    requires !db.Redis? && DeleteParams(db, table, key, keyValue).Ok?
    ensures var p := DeleteParams(db, table, key, keyValue).value;
            && p.args == [keyValue]
            && Tokens(db, Sql(db, p.pieces)) == Some(DeleteShape(table, key, Marks(db)))
            && Delete(db, table, key, keyValue).Ok?
            && (PlainNumbers(p.args) ==>
                  Tokens(db, Delete(db, table, key, keyValue).value) == Some(DeleteShape(table, key, Bound(db, p.args))))
  {
    DeleteReadsRight(db, table, key, keyValue);
    DeleteFilled(db, table, key, keyValue, Marks(db));
    DeleteFilled(db, table, key, keyValue, Bound(db, [keyValue]));
    hide Tokens, Filled, DeleteShape, DeleteError, Sql;
  }

  /** When a statement is refused, and how. */
  lemma RefusedIff(db: DbType, table: string, data: Data, info: Option<seq<Column>>, key: string, keyValue: Value)
    ensures InsertParams(db, table, data, info).Ok? <==>
              IsTableName(table) && forall i :: 0 <= i < |data| ==> IsColumnName(data[i].0)
    ensures UpdateParams(db, table, data, key, keyValue).Ok? <==>
              IsTableName(table) && IsColumnName(key) && data != [] && keyValue != Null
    ensures DeleteParams(db, table, key, keyValue).Ok? <==> IsTableName(table) && IsColumnName(key) && keyValue != Null
  {
    BadNameIff(data);
    hide IsTableName, IsColumnName, BadName, JoinPieces, Filter;
  }

  lemma {:induction false} BadNameIff(data: Data)
    ensures BadName(data).None? <==> forall i :: 0 <= i < |data| ==> IsColumnName(data[i].0)
  {
    hide IsColumnName;
    if data != [] {
      BadNameIff(data[1..]);
      assert forall i :: 0 < i < |data| ==> data[i] == data[1..][i - 1];
    }
  }
}
