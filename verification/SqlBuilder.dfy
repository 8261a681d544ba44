/**
 Building INSERT, UPDATE and DELETE statements (internal/domain/database/sql_builder.go),
 once with the values written into the text and once with placeholders and arguments.

 The columns come as a sequence: the order in which the source happens to visit its map.
 */
module SqlBuilder {
  import opened Common
  import opened SqlEscape

  /** A column value; numbers of other kinds and other types come as the text they print as. */
  datatype Value = Null | Str(s: string) | Int(n: int) | Float(text: string) | Bool(b: bool) | Other(text: string)

  type Data = seq<(string, Value)>

  datatype Column = Column(name: string, autoIncrement: bool)

  datatype Error = BadTable | BadColumn(name: string) | BadKey | NoData | NoKeyValue

  datatype Result<T> = Ok(value: T) | Err(error: Error)

  /** A statement with placeholders: pieces of text and numbered holes. */
  datatype Piece = Text(text: string) | Hole(n: nat)

  datatype Prepared = Prepared(pieces: seq<Piece>, args: seq<Value>)

  // ---- Names and values ----

  predicate IsLetter(c: char) {
    'a' <= c <= 'z' || 'A' <= c <= 'Z' || c == '_'
  }

  predicate IsTableName(s: string) {
    1 <= |s| <= 64 && IsLetter(s[0]) && forall i | 0 <= i < |s| :: IsLetter(s[i]) || IsDigit(s[i])
  }

  predicate IsColumnName(s: string) {
    1 <= |s| <= 64 && forall i | 0 <= i < |s| :: IsLetter(s[i]) || IsDigit(s[i]) || s[i] == '-'
  }

  function ShowInt(n: int): string {
    if n < 0 then "-" + Decimal(-n) else Decimal(n)
  }

  /** formatValue. */
  function Format(db: DbType, v: Value): string {
    match v
    case Null => "NULL"
    case Str(s) => "'" + Escaped(db, s) + "'"
    case Int(n) => ShowInt(n)
    case Float(text) => text
    case Bool(b) => if db.MySql? then (if b then "1" else "0") else if b then "true" else "false"
    case Other(text) => "'" + Escaped(db, text) + "'"
  }

  function Placeholder(db: DbType, n: nat): string {
    if db.PostgreSql? then "$" + Decimal(n) else "?"
  }

  function Join(parts: seq<string>, sep: string): string {
    if parts == [] then "" else if |parts| == 1 then parts[0] else parts[0] + sep + Join(parts[1..], sep)
  }

  function JoinPieces(parts: seq<seq<Piece>>, sep: string): seq<Piece> {
    if parts == [] then [] else if |parts| == 1 then parts[0] else parts[0] + [Text(sep)] + JoinPieces(parts[1..], sep)
  }

  // ---- The text of a prepared statement, and what it amounts to ----

  /** The text handed to the driver. */
  function Sql(db: DbType, pieces: seq<Piece>): string {
    if pieces == [] then ""
    else (if pieces[0].Text? then pieces[0].text else Placeholder(db, pieces[0].n)) + Sql(db, pieces[1..])
  }

  /** The holes filled with the rendered arguments. */
  function Fill(db: DbType, pieces: seq<Piece>, args: seq<Value>): string {
    if pieces == [] then ""
    else FillPiece(db, pieces[0], args) + Fill(db, pieces[1..], args)
  }

  function FillPiece(db: DbType, p: Piece, args: seq<Value>): string {
    if p.Text? then p.text else if 1 <= p.n <= |args| then Format(db, args[p.n - 1]) else ""
  }

  function Holes(pieces: seq<Piece>): seq<nat> {
    if pieces == [] then []
    else (if pieces[0].Hole? then [pieces[0].n] else []) + Holes(pieces[1..])
  }

  function UpTo(n: nat): seq<nat> {
    Upwards(1, n)
  }

  lemma {:induction false} FillAppend(db: DbType, a: seq<Piece>, b: seq<Piece>, args: seq<Value>)
    ensures Fill(db, a + b, args) == Fill(db, a, args) + Fill(db, b, args)
  {
    hide FillPiece;
    if a == [] {
      assert a + b == b;
    } else {
      assert (a + b)[1..] == a[1..] + b;
      FillAppend(db, a[1..], b, args);
      Regroup(FillPiece(db, a[0], args), Fill(db, a[1..], args), Fill(db, b, args));
    }
  }

  lemma Regroup<T>(a: seq<T>, b: seq<T>, c: seq<T>)
    ensures a + (b + c) == a + b + c
  {
  }

  lemma {:induction false} HolesAppend(a: seq<Piece>, b: seq<Piece>)
    ensures Holes(a + b) == Holes(a) + Holes(b)
  {
    if a == [] {
      assert a + b == b;
    } else {
      assert (a + b)[1..] == a[1..] + b && (a + b)[0] == a[0];
      HolesAppend(a[1..], b);
      Regroup(if a[0].Hole? then [a[0].n] else [], Holes(a[1..]), Holes(b));
    }
  }

  lemma FillOne(db: DbType, p: Piece, args: seq<Value>)
    ensures Fill(db, [p], args) == FillPiece(db, p, args)
    ensures Holes([p]) == if p.Hole? then [p.n] else []
  {
    assert [p][1..] == [];
    assert FillPiece(db, p, args) + "" == FillPiece(db, p, args);
  }

  /** Filling a joined list fills its parts. */
  lemma {:induction false} FillJoin(db: DbType, parts: seq<seq<Piece>>, sep: string, args: seq<Value>, texts: seq<string>)
    requires |texts| == |parts| && forall i :: 0 <= i < |parts| ==> texts[i] == Fill(db, parts[i], args)
    ensures Fill(db, JoinPieces(parts, sep), args) == Join(texts, sep)
  {
    hide Fill;
    if |parts| == 0 {
      NothingToFill(db, args);
    } else if |parts| > 1 {
      FillJoin(db, parts[1..], sep, args, texts[1..]);
      FillAppend(db, parts[0] + [Text(sep)], JoinPieces(parts[1..], sep), args);
      FillAppend(db, parts[0], [Text(sep)], args);
      FillOne(db, Text(sep), args);
    }
  }

  lemma NothingToFill(db: DbType, args: seq<Value>)
    ensures Fill(db, [], args) == ""
  {
  }

  function HolesOfAll(parts: seq<seq<Piece>>): seq<nat> {
    if parts == [] then [] else Holes(parts[0]) + HolesOfAll(parts[1..])
  }

  lemma {:induction false} HolesJoin(parts: seq<seq<Piece>>, sep: string)
    ensures Holes(JoinPieces(parts, sep)) == HolesOfAll(parts)
  {
    hide Holes;
    if |parts| == 0 {
      NoHoles();
    } else if |parts| == 1 {
      assert parts[1..] == [];
    } else {
      HolesJoin(parts[1..], sep);
      HolesAppend(parts[0] + [Text(sep)], JoinPieces(parts[1..], sep));
      HolesAppend(parts[0], [Text(sep)]);
      FillOne(MySql, Text(sep), []);
    }
  }

  lemma NoHoles()
    ensures Holes([]) == []
  {
  }

  lemma {:induction false} HolesInTurn(parts: seq<seq<Piece>>, first: nat)
    requires forall i :: 0 <= i < |parts| ==> Holes(parts[i]) == [first + i + 1]
    ensures HolesOfAll(parts) == Upwards(first + 1, |parts|)
  {
    hide Holes;
    if parts != [] {
      HolesInTurn(parts[1..], first + 1);
      assert Upwards(first + 1, |parts|) == [first + 1] + Upwards(first + 2, |parts| - 1);
    }
  }

  function Upwards(first: nat, n: nat): seq<nat> {
    seq(n, i requires 0 <= i => first + i)
  }

  // ---- INSERT ----

  predicate Skipped(info: Option<seq<Column>>, col: string, v: Value) {
    info.Some? && exists i | 0 <= i < |info.value| ::
      info.value[i].name == col && info.value[i].autoIncrement && (v.Null? || v == Str(""))
  }

  function IsKept(info: Option<seq<Column>>): ((string, Value)) -> bool {
    (c: (string, Value)) => !Skipped(info, c.0, c.1)
  }

  /** The first column with a bad name. */
  function BadName(data: Data): Option<string> {
    if data == [] then None
    else if !IsColumnName(data[0].0) then Some(data[0].0)
    else BadName(data[1..])
  }

  function Names(db: DbType, data: Data): seq<string> {
    seq(|data|, i requires 0 <= i < |data| => QuoteIdentifier(db, data[i].0))
  }

  function Values(db: DbType, data: Data): seq<string> {
    seq(|data|, i requires 0 <= i < |data| => Format(db, data[i].1))
  }

  function Args(data: Data): seq<Value> {
    seq(|data|, i requires 0 <= i < |data| => data[i].1)
  }

  function HoleParts(n: nat): seq<seq<Piece>> {
    seq(n, i requires 0 <= i => [Hole(i + 1)])
  }

  function InsertDefaults(db: DbType, table: string): string {
    "INSERT INTO " + QuoteIdentifier(db, table) + (if db.PostgreSql? then " DEFAULT VALUES;" else " () VALUES ();")
  }

  function InsertHead(db: DbType, table: string, data: Data): string {
    "INSERT INTO " + QuoteIdentifier(db, table) + " (" + Join(Names(db, data), ", ") + ") VALUES ("
  }

  function Insert(db: DbType, table: string, data: Data, info: Option<seq<Column>>): Result<string> {
    var kept := Filter(data, IsKept(info));
    if !IsTableName(table) then Err(BadTable)
    else if BadName(data).Some? then Err(BadColumn(BadName(data).value))
    else if kept == [] then Ok(InsertDefaults(db, table))
    else Ok(InsertHead(db, table, kept) + Join(Values(db, kept), ", ") + ");")
  }

  function InsertParams(db: DbType, table: string, data: Data, info: Option<seq<Column>>): Result<Prepared> {
    var kept := Filter(data, IsKept(info));
    if !IsTableName(table) then Err(BadTable)
    else if BadName(data).Some? then Err(BadColumn(BadName(data).value))
    else if kept == [] then Ok(Prepared([Text(InsertDefaults(db, table))], []))
    else
      Ok(Prepared([Text(InsertHead(db, table, kept))] + JoinPieces(HoleParts(|kept|), ", ") + [Text(");")], Args(kept)))
  }

  /** Both fail alike, or the holes are numbered as the arguments are and filling them gives the rendered text. */
  ghost predicate Agree(db: DbType, rendered: Result<string>, prepared: Result<Prepared>) {
    match rendered
    case Err(e) => prepared == Err(e)
    case Ok(text) =>
      prepared.Ok? && Holes(prepared.value.pieces) == UpTo(|prepared.value.args|)
      && Fill(db, prepared.value.pieces, prepared.value.args) == text
  }

  /** Text, joined parts, text. */
  lemma Framed(db: DbType, head: string, parts: seq<seq<Piece>>, tail: string, args: seq<Value>, texts: seq<string>)
    requires |texts| == |parts| && forall i :: 0 <= i < |parts| ==> texts[i] == Fill(db, parts[i], args)
    requires forall i :: 0 <= i < |parts| ==> Holes(parts[i]) == [i + 1]
    ensures var pieces := [Text(head)] + JoinPieces(parts, ", ") + [Text(tail)];
            Fill(db, pieces, args) == head + Join(texts, ", ") + tail && Holes(pieces) == UpTo(|parts|)
  {
    hide Fill, Holes, JoinPieces, Join;
    var middle := JoinPieces(parts, ", ");
    FillAppend(db, [Text(head)] + middle, [Text(tail)], args);
    FillAppend(db, [Text(head)], middle, args);
    HolesAppend([Text(head)] + middle, [Text(tail)]);
    HolesAppend([Text(head)], middle);
    FillOne(db, Text(head), args);
    FillOne(db, Text(tail), args);
    FillJoin(db, parts, ", ", args, texts);
    HolesJoin(parts, ", ");
    HolesInTurn(parts, 0);
  }

  lemma InsertAgrees(db: DbType, table: string, data: Data, info: Option<seq<Column>>)
    ensures Agree(db, Insert(db, table, data, info), InsertParams(db, table, data, info))
  {
    hide Format, Holes, Fill, JoinPieces, Join, InsertHead, InsertDefaults, IsTableName, BadName;
    var kept := Filter(data, IsKept(info));
    var parts, texts := HoleParts(|kept|), Values(db, kept);
    forall i | 0 <= i < |kept| ensures texts[i] == Fill(db, parts[i], Args(kept)) && Holes(parts[i]) == [i + 1] {
      FillOne(db, Hole(i + 1), Args(kept));
    }
    Framed(db, InsertHead(db, table, kept), parts, ");", Args(kept), texts);
    FillOne(db, Text(InsertDefaults(db, table)), []);
    assert UpTo(0) == [];
  }

  // ---- UPDATE ----

  function NotKey(key: string): ((string, Value)) -> bool {
    (c: (string, Value)) => c.0 != key
  }

  function UpdateError(table: string, data: Data, key: string, keyValue: Value): Option<Error> {
    if !IsTableName(table) then Some(BadTable)
    else if !IsColumnName(key) then Some(BadKey)
    else if data == [] then Some(NoData)
    else if keyValue.Null? then Some(NoKeyValue)
    else None
  }

  function Sets(db: DbType, data: Data): seq<string> {
    seq(|data|, i requires 0 <= i < |data| => QuoteIdentifier(db, data[i].0) + " = " + Format(db, data[i].1))
  }

  function SetParts(db: DbType, data: Data): seq<seq<Piece>> {
    seq(|data|, i requires 0 <= i < |data| => [Text(QuoteIdentifier(db, data[i].0) + " = "), Hole(i + 1)])
  }

  function UpdateHead(db: DbType, table: string): string {
    "UPDATE " + QuoteIdentifier(db, table) + " SET "
  }

  function UpdateTail(db: DbType, key: string): string {
    " WHERE " + QuoteIdentifier(db, key) + " = "
  }

  function Update(db: DbType, table: string, data: Data, key: string, keyValue: Value): Result<string> {
    var rest := Filter(data, NotKey(key));
    match UpdateError(table, data, key, keyValue)
    case Some(e) => Err(e)
    case None =>
      Ok(UpdateHead(db, table) + Join(Sets(db, rest), ", ") + UpdateTail(db, key) + Format(db, keyValue) + ";")
  }

  function UpdateParams(db: DbType, table: string, data: Data, key: string, keyValue: Value): Result<Prepared> {
    var rest := Filter(data, NotKey(key));
    match UpdateError(table, data, key, keyValue)
    case Some(e) => Err(e)
    case None =>
      Ok(Prepared([Text(UpdateHead(db, table))] + JoinPieces(SetParts(db, rest), ", ") + [Text(UpdateTail(db, key))]
                  + [Hole(|rest| + 1), Text(";")],
                  Args(rest) + [keyValue]))
  }

  lemma FillTwo(db: DbType, p: Piece, q: Piece, args: seq<Value>)
    ensures Fill(db, [p, q], args) == FillPiece(db, p, args) + FillPiece(db, q, args)
    ensures Holes([p, q]) == (if p.Hole? then [p.n] else []) + (if q.Hole? then [q.n] else [])
  {
    assert [p, q][1..] == [q];
    FillOne(db, q, args);
  }

  lemma UpdateAgrees(db: DbType, table: string, data: Data, key: string, keyValue: Value)
    ensures Agree(db, Update(db, table, data, key, keyValue), UpdateParams(db, table, data, key, keyValue))
  {
    hide Format, Holes, Fill, JoinPieces, Join, UpdateHead, UpdateTail, QuoteIdentifier, IsTableName, IsColumnName, Filter;
    var rest := Filter(data, NotKey(key));
    var parts, texts, args := SetParts(db, rest), Sets(db, rest), Args(rest) + [keyValue];
    forall i | 0 <= i < |rest| ensures texts[i] == Fill(db, parts[i], args) && Holes(parts[i]) == [i + 1] {
      FillTwo(db, Text(QuoteIdentifier(db, rest[i].0) + " = "), Hole(i + 1), args);
      assert args[i] == rest[i].1;
    }
    var n := |rest| + 1;
    Framed(db, UpdateHead(db, table), parts, UpdateTail(db, key), args, texts);
    var front := [Text(UpdateHead(db, table))] + JoinPieces(parts, ", ") + [Text(UpdateTail(db, key))];
    FillAppend(db, front, [Hole(n), Text(";")], args);
    HolesAppend(front, [Hole(n), Text(";")]);
    FillTwo(db, Hole(n), Text(";"), args);
    assert args[n - 1] == keyValue;
    assert UpTo(n) == UpTo(n - 1) + [n];
    var text := UpdateHead(db, table) + Join(texts, ", ") + UpdateTail(db, key);
    assert text + (Format(db, keyValue) + ";") == text + Format(db, keyValue) + ";";
  }

  /**
   An update that names no column but the key is not refused: its list of assignments is
   empty, which no server accepts.
   */
  lemma NothingSetIff(db: DbType, table: string, data: Data, key: string, keyValue: Value)
    requires UpdateError(table, data, key, keyValue).None?
    ensures Update(db, table, data, key, keyValue)
              == Ok(UpdateHead(db, table) + "" + UpdateTail(db, key) + Format(db, keyValue) + ";")
       <==> forall i :: 0 <= i < |data| ==> data[i].0 == key
  {
    hide UpdateHead, UpdateTail, Format, UpdateError;
    var rest := Filter(data, NotKey(key));
    FilterMembers(data, NotKey(key));
    var sets := Join(Sets(db, rest), ", ");
    if rest == [] {
      forall i | 0 <= i < |data| ensures data[i].0 == key {
        assert data[i] in data;
      }
    } else {
      assert rest[0] in rest;
      SetsAreText(db, rest);
      Longer(UpdateHead(db, table), sets, UpdateTail(db, key) + Format(db, keyValue) + ";");
      assert UpdateHead(db, table) + sets + (UpdateTail(db, key) + Format(db, keyValue) + ";")
          == UpdateHead(db, table) + sets + UpdateTail(db, key) + Format(db, keyValue) + ";";
      assert UpdateHead(db, table) + "" + (UpdateTail(db, key) + Format(db, keyValue) + ";")
          == UpdateHead(db, table) + "" + UpdateTail(db, key) + Format(db, keyValue) + ";";
    }
  }

  lemma SetsAreText(db: DbType, rest: Data)
    requires rest != []
    ensures Join(Sets(db, rest), ", ") != ""
  {
    assert |Sets(db, rest)[0]| >= |" = "|;
  }

  lemma Longer(a: string, b: string, c: string)
    requires b != ""
    ensures a + b + c != a + "" + c
  {
    assert |a + b + c| > |a + "" + c|;
  }

  // ---- DELETE ----

  function DeleteError(table: string, key: string, keyValue: Value): Option<Error> {
    if !IsTableName(table) then Some(BadTable)
    else if !IsColumnName(key) then Some(BadKey)
    else if keyValue.Null? then Some(NoKeyValue)
    else None
  }

  function DeleteHead(db: DbType, table: string, key: string): string {
    "DELETE FROM " + QuoteIdentifier(db, table) + " WHERE " + QuoteIdentifier(db, key) + " = "
  }

  function Delete(db: DbType, table: string, key: string, keyValue: Value): Result<string> {
    match DeleteError(table, key, keyValue)
    case Some(e) => Err(e)
    case None => Ok(DeleteHead(db, table, key) + Format(db, keyValue) + ";")
  }

  function DeleteParams(db: DbType, table: string, key: string, keyValue: Value): Result<Prepared> {
    match DeleteError(table, key, keyValue)
    case Some(e) => Err(e)
    case None => Ok(Prepared([Text(DeleteHead(db, table, key))] + [Hole(1), Text(";")], [keyValue]))
  }

  lemma DeleteAgrees(db: DbType, table: string, key: string, keyValue: Value)
    ensures Agree(db, Delete(db, table, key, keyValue), DeleteParams(db, table, key, keyValue))
  {
    hide Format, Holes, Fill, DeleteHead, IsTableName, IsColumnName;
    var head, args := Text(DeleteHead(db, table, key)), [keyValue];
    FillAppend(db, [head], [Hole(1), Text(";")], args);
    HolesAppend([head], [Hole(1), Text(";")]);
    FillOne(db, head, args);
    FillTwo(db, Hole(1), Text(";"), args);
    assert UpTo(1) == [1];
    assert head.text + (Format(db, keyValue) + ";") == head.text + Format(db, keyValue) + ";";
  }

  // ---- String arguments in the rendered text ----

  /** A character that neither a literal nor a placeholder just ended goes on with. */
  predicate IsSoft(c: char) {
    c != '\'' && !IsDigit(c)
  }

  predicate Stops(p: Piece) {
    p.Text? && p.text != "" && IsSoft(p.text[0])
  }

  /** Behind every hole stands text that stops it; `open` says that such text will follow the last piece. */
  predicate Fenced(pieces: seq<Piece>, open: bool) {
    pieces == [] || (
      && Fenced(pieces[1..], open)
      && (pieces[0].Hole? ==> if |pieces| == 1 then open else Stops(pieces[1])))
  }

  lemma {:induction false} FencedAppend(a: seq<Piece>, b: seq<Piece>, open: bool)
    requires Fenced(a, true) && b != [] && Stops(b[0]) && Fenced(b, open)
    ensures Fenced(a + b, open)
  {
    if a == [] {
      assert a + b == b;
    } else {
      assert (a + b)[1..] == a[1..] + b;
      FencedAppend(a[1..], b, open);
    }
  }

  lemma FencedText(t: string, a: seq<Piece>, open: bool)
    requires Fenced(a, open)
    ensures Fenced([Text(t)] + a, open)
  {
    assert ([Text(t)] + a)[1..] == a;
  }

  lemma {:induction false} FencedJoin(parts: seq<seq<Piece>>)
    requires forall i :: 0 <= i < |parts| ==> Fenced(parts[i], true)
    ensures Fenced(JoinPieces(parts, ", "), true)
  {
    if |parts| > 1 {
      var rest := JoinPieces(parts[1..], ", ");
      FencedJoin(parts[1..]);
      FencedText(", ", rest, true);
      FencedAppend(parts[0], [Text(", ")] + rest, true);
      assert parts[0] + ([Text(", ")] + rest) == parts[0] + [Text(", ")] + rest;
    }
  }

  lemma FencedPair(t: string, n: nat)
    ensures Fenced([Hole(n)], true) && Fenced([Text(t), Hole(n)], true)
    ensures t != "" && IsSoft(t[0]) ==> Fenced([Hole(n), Text(t)], false)
    ensures Fenced([Text(t)], false)
  {
    assert [Hole(n)][1..] == [] && [Text(t), Hole(n)][1..] == [Hole(n)];
    assert [Hole(n), Text(t)][1..] == [Text(t)] && [Text(t)][1..] == [];
  }

  lemma InsertIsFenced(db: DbType, table: string, data: Data, info: Option<seq<Column>>)
    ensures var r := InsertParams(db, table, data, info); r.Ok? ==> Fenced(r.value.pieces, false)
  {
    hide JoinPieces, Fenced, InsertHead, InsertDefaults, Filter, IsTableName, BadName;
    var kept := Filter(data, IsKept(info));
    forall i | 0 <= i < |kept| ensures Fenced(HoleParts(|kept|)[i], true) {
      FencedPair("", i + 1);
    }
    FencedJoin(HoleParts(|kept|));
    FencedPair(");", 0);
    FencedPair(InsertDefaults(db, table), 0);
    FencedText(InsertHead(db, table, kept), JoinPieces(HoleParts(|kept|), ", "), true);
    FencedAppend([Text(InsertHead(db, table, kept))] + JoinPieces(HoleParts(|kept|), ", "), [Text(");")], false);
  }

  lemma UpdateIsFenced(db: DbType, table: string, data: Data, key: string, keyValue: Value)
    ensures var r := UpdateParams(db, table, data, key, keyValue); r.Ok? ==> Fenced(r.value.pieces, false)
  {
    hide JoinPieces, Fenced, UpdateHead, QuoteIdentifier, Filter, IsTableName, IsColumnName;
    var rest := Filter(data, NotKey(key));
    var parts, n := SetParts(db, rest), |rest| + 1;
    forall i | 0 <= i < |rest| ensures Fenced(parts[i], true) {
      FencedPair(QuoteIdentifier(db, rest[i].0) + " = ", i + 1);
    }
    FencedJoin(parts);
    var front, end := [Text(UpdateHead(db, table))] + JoinPieces(parts, ", "), [Hole(n), Text(";")];
    FencedText(UpdateHead(db, table), JoinPieces(parts, ", "), true);
    FencedPair(";", n);
    FencedText(UpdateTail(db, key), end, false);
    FencedAppend(front, [Text(UpdateTail(db, key))] + end, false);
    assert front + ([Text(UpdateTail(db, key))] + end) == front + [Text(UpdateTail(db, key))] + end;
  }

  lemma DeleteIsFenced(db: DbType, table: string, key: string, keyValue: Value)
    ensures var r := DeleteParams(db, table, key, keyValue); r.Ok? ==> Fenced(r.value.pieces, false)
  {
    hide Fenced, DeleteHead, IsTableName, IsColumnName;
    FencedPair(";", 1);
    FencedText(DeleteHead(db, table, key), [Hole(1), Text(";")], false);
  }

  lemma {:induction false} FencedAt(pieces: seq<Piece>, i: nat)
    requires Fenced(pieces, false) && i < |pieces| && pieces[i].Hole?
    ensures i + 1 < |pieces| && Stops(pieces[i + 1])
  {
    if i > 0 {
      FencedAt(pieces[1..], i - 1);
    }
  }

  /**
   A string argument, as it stands in the rendered statement, is read by the server as
   the very string that would have been bound, and what it reads after it is the rest of
   the statement.
   */
  lemma ArgumentReadsBack(db: DbType, pieces: seq<Piece>, args: seq<Value>, i: nat)
    requires !db.Redis? && Fenced(pieces, false) && i < |pieces| && pieces[i].Hole?
    requires 1 <= pieces[i].n <= |args| && args[pieces[i].n - 1].Str?
    ensures var s := args[pieces[i].n - 1].s;
            var before, after := Fill(db, pieces[..i], args), Fill(db, pieces[i + 1..], args);
            && Fill(db, pieces, args) == before + "'" + (Escaped(db, s) + "'" + after)
            && Lex(db, Escaped(db, s) + "'" + after) == Some((s, after))
  {
    hide *;
    FencedAt(pieces, i);
    StopsAfter(db, pieces[i + 1..], args);
    LiteralIn(db, pieces[i], args);
    LiteralReadsBackIff(db, args[pieces[i].n - 1].s, Fill(db, pieces[i + 1..], args));
    FillAround(db, pieces, args, i);
    var literal, after := Escaped(db, args[pieces[i].n - 1].s), Fill(db, pieces[i + 1..], args);
    Quoted(Fill(db, pieces[..i], args), literal, after);
  }

  lemma LiteralIn(db: DbType, p: Piece, args: seq<Value>)
    requires p.Hole? && 1 <= p.n <= |args| && args[p.n - 1].Str?
    ensures FillPiece(db, p, args) == "'" + Escaped(db, args[p.n - 1].s) + "'"
  {
  }

  lemma Quoted(before: string, literal: string, after: string)
    ensures before + ("'" + literal + "'") + after == before + "'" + (literal + "'" + after)
  {
  }

  lemma FillAround(db: DbType, pieces: seq<Piece>, args: seq<Value>, i: nat)
    requires i < |pieces|
    ensures Fill(db, pieces, args)
         == Fill(db, pieces[..i], args) + FillPiece(db, pieces[i], args) + Fill(db, pieces[i + 1..], args)
  {
    hide Fill, FillPiece;
    assert pieces == pieces[..i] + [pieces[i]] + pieces[i + 1..];
    FillAppend(db, pieces[..i] + [pieces[i]], pieces[i + 1..], args);
    FillAppend(db, pieces[..i], [pieces[i]], args);
    FillOne(db, pieces[i], args);
  }

  lemma StopsAfter(db: DbType, pieces: seq<Piece>, args: seq<Value>)
    requires pieces != [] && Stops(pieces[0])
    ensures !StartsWith(Fill(db, pieces, args), '\'')
  {
  }

  // ---- The builder ----

  class SqlBuilder {
    const db: DbType

    constructor (db: DbType)
      ensures this.db == db
    {
      this.db := db;
    }

    /** The auto-increment columns left empty are skipped. */
    method IsSkipped(info: Option<seq<Column>>, col: string, v: Value) returns (skip: bool)
      ensures skip == Skipped(info, col, v)
    {
      if info.Some? {
        for i := 0 to |info.value|
          invariant forall k :: 0 <= k < i ==>
                      !(info.value[k].name == col && info.value[k].autoIncrement && (v.Null? || v == Str("")))
        {
          if info.value[i].name == col && info.value[i].autoIncrement && (v.Null? || v == Str("")) {
            return true;
          }
        }
      }
      return false;
    }

    method CheckColumns(data: Data) returns (bad: Option<string>)
      ensures bad == BadName(data)
    {
      var rest := data;
      while rest != []
        invariant BadName(data) == BadName(rest)
        decreases |rest|
      {
        if !IsColumnName(rest[0].0) {
          return Some(rest[0].0);
        }
        rest := rest[1..];
      }
      return None;
    }

    method BuildInsert(table: string, data: Data, info: Option<seq<Column>>) returns (r: Result<string>)
      ensures r == Insert(db, table, data, info)
    {
      hide Skipped, Format, QuoteIdentifier, Join, IsTableName, IsColumnName, BadName;
      if !IsTableName(table) {
        return Err(BadTable);
      }
      var bad := CheckColumns(data);
      if bad.Some? {
        return Err(BadColumn(bad.value));
      }
      var cols: seq<string>, vals: seq<string> := [], [];
      ghost var kept: Data := [];
      var i := 0;
      while i < |data|
        invariant 0 <= i <= |data|
        invariant kept == Filter(data[..i], IsKept(info))
        invariant cols == Names(db, kept) && vals == Values(db, kept)
      {
        NextColumn(data, i, IsKept(info));
        var skip := IsSkipped(info, data[i].0, data[i].1);
        if !skip {
          cols := cols + [QuoteIdentifier(db, data[i].0)];
          vals := vals + [Format(db, data[i].1)];
          kept := kept + [data[i]];
        }
        i := i + 1;
      }
      assert data[..i] == data;
      if |cols| == 0 {
        return Ok(InsertDefaults(db, table));
      }
      r := Ok("INSERT INTO " + QuoteIdentifier(db, table) + " (" + Join(cols, ", ") + ") VALUES (" + Join(vals, ", ") + ");");
    }

    method BuildInsertParams(table: string, data: Data, info: Option<seq<Column>>) returns (r: Result<Prepared>)
      ensures r == InsertParams(db, table, data, info)
    {
      hide Skipped, QuoteIdentifier, Join, JoinPieces, IsTableName, IsColumnName, BadName;
      if !IsTableName(table) {
        return Err(BadTable);
      }
      var bad := CheckColumns(data);
      if bad.Some? {
        return Err(BadColumn(bad.value));
      }
      var cols: seq<string>, holes: seq<seq<Piece>>, args: seq<Value>, n := [], [], [], 0;
      ghost var kept: Data := [];
      var i := 0;
      while i < |data|
        invariant 0 <= i <= |data|
        invariant kept == Filter(data[..i], IsKept(info)) && n == |kept|
        invariant cols == Names(db, kept) && holes == HoleParts(n) && args == Args(kept)
      {
        NextColumn(data, i, IsKept(info));
        var skip := IsSkipped(info, data[i].0, data[i].1);
        if !skip {
          cols := cols + [QuoteIdentifier(db, data[i].0)];
          n := n + 1;
          holes := holes + [[Hole(n)]];
          args := args + [data[i].1];
          kept := kept + [data[i]];
        }
        i := i + 1;
      }
      assert data[..i] == data;
      if |cols| == 0 {
        return Ok(Prepared([Text(InsertDefaults(db, table))], []));
      }
      var head := "INSERT INTO " + QuoteIdentifier(db, table) + " (" + Join(cols, ", ") + ") VALUES (";
      r := Ok(Prepared([Text(head)] + JoinPieces(holes, ", ") + [Text(");")], args));
    }

    method BuildUpdate(table: string, data: Data, key: string, keyValue: Value) returns (r: Result<string>)
      ensures r == Update(db, table, data, key, keyValue)
    {
      hide Format, QuoteIdentifier, Join, IsTableName, IsColumnName;
      if !IsTableName(table) {
        return Err(BadTable);
      }
      if !IsColumnName(key) {
        return Err(BadKey);
      }
      if |data| == 0 {
        return Err(NoData);
      }
      if keyValue.Null? {
        return Err(NoKeyValue);
      }
      var sets: seq<string> := [];
      ghost var rest: Data := [];
      var i := 0;
      while i < |data|
        invariant 0 <= i <= |data|
        invariant rest == Filter(data[..i], NotKey(key)) && sets == Sets(db, rest)
      {
        NextColumn(data, i, NotKey(key));
        if data[i].0 != key {
          sets := sets + [QuoteIdentifier(db, data[i].0) + " = " + Format(db, data[i].1)];
          rest := rest + [data[i]];
        }
        i := i + 1;
      }
      assert data[..i] == data;
      r := Ok(UpdateHead(db, table) + Join(sets, ", ") + UpdateTail(db, key) + Format(db, keyValue) + ";");
    }

    method BuildUpdateParams(table: string, data: Data, key: string, keyValue: Value) returns (r: Result<Prepared>)
      ensures r == UpdateParams(db, table, data, key, keyValue)
    {
      hide QuoteIdentifier, JoinPieces, IsTableName, IsColumnName;
      if !IsTableName(table) {
        return Err(BadTable);
      }
      if !IsColumnName(key) {
        return Err(BadKey);
      }
      if |data| == 0 {
        return Err(NoData);
      }
      if keyValue.Null? {
        return Err(NoKeyValue);
      }
      var sets: seq<seq<Piece>>, args: seq<Value>, n := [], [], 0;
      ghost var rest: Data := [];
      var i := 0;
      while i < |data|
        invariant 0 <= i <= |data|
        invariant rest == Filter(data[..i], NotKey(key)) && n == |rest|
        invariant sets == SetParts(db, rest) && args == Args(rest)
      {
        NextColumn(data, i, NotKey(key));
        if data[i].0 != key {
          n := n + 1;
          sets := sets + [[Text(QuoteIdentifier(db, data[i].0) + " = "), Hole(n)]];
          args := args + [data[i].1];
          rest := rest + [data[i]];
        }
        i := i + 1;
      }
      assert data[..i] == data;
      n := n + 1;
      r := Ok(Prepared([Text(UpdateHead(db, table))] + JoinPieces(sets, ", ") + [Text(UpdateTail(db, key))]
                       + [Hole(n), Text(";")], args + [keyValue]));
    }
  }

  lemma NextColumn(data: Data, i: nat, keep: ((string, Value)) -> bool)
    requires i < |data|
    ensures Filter(data[..i + 1], keep) == Filter(data[..i], keep) + (if keep(data[i]) then [data[i]] else [])
  {
    assert data[..i + 1] == data[..i] + [data[i]];
    FilterAppend(data[..i], [data[i]], keep);
    FilterOne(data[i], keep);
  }
}
