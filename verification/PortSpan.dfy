/** Port expressions: one port, or a range `a-b` (internal/domain/firewall/port_forward.go). */
module PortSpan {
  import opened Common

  datatype Span = Span(first: nat, last: nat)

  const LAST_PORT := 65535

  /** Unicode's White_Space property, which strings.TrimSpace goes by. */
  predicate IsSpace(c: char) {
    '\t' <= c <= '\r' || c == ' ' || c == '\U{85}' || c == '\U{A0}' || c == '\U{1680}'
    || '\U{2000}' <= c <= '\U{200A}' || c == '\U{2028}' || c == '\U{2029}' || c == '\U{202F}'
    || c == '\U{205F}' || c == '\U{3000}'
  }

  function TrimLeft(s: string): string {
    if s != [] && IsSpace(s[0]) then TrimLeft(s[1..]) else s
  }

  function TrimRight(s: string): string {
    if s != [] && IsSpace(s[|s| - 1]) then TrimRight(s[..|s| - 1]) else s
  }

  function Trim(s: string): string {
    TrimRight(TrimLeft(s))
  }

  predicate IsTrimmed(s: string) {
    s == [] || (!IsSpace(s[0]) && !IsSpace(s[|s| - 1]))
  }

  predicate Blank(s: string) {
    forall i :: 0 <= i < |s| ==> IsSpace(s[i])
  }

  lemma {:induction false} TrimLeftCuts(s: string)
    ensures var n := |s| - |TrimLeft(s)|;
            0 <= n && s[n..] == TrimLeft(s) && Blank(s[..n]) && (n < |s| ==> !IsSpace(s[n]))
  {
    if s != [] && IsSpace(s[0]) {
      TrimLeftCuts(s[1..]);
      var n := |s| - |TrimLeft(s)|;
      assert n > 0 && s[n..] == s[1..][n - 1..];
      forall i | 0 <= i < n ensures IsSpace(s[i]) {
        assert i > 0 ==> s[i] == s[1..][..n - 1][i - 1];
      }
    } else {
      assert s[0..] == s && s[..0] == [];
    }
  }

  lemma {:induction false} TrimRightCuts(s: string)
    ensures var n := |TrimRight(s)|;
            n <= |s| && s[..n] == TrimRight(s) && Blank(s[n..]) && (n > 0 ==> !IsSpace(s[n - 1]))
  {
    if s != [] && IsSpace(s[|s| - 1]) {
      TrimRightCuts(s[..|s| - 1]);
      var n := |TrimRight(s)|;
      assert s[..|s| - 1][n..] == s[n..|s| - 1];
      assert s[n..] == s[n..|s| - 1] + [s[|s| - 1]];
    }
  }

  /** Trimming cuts white space off both ends, as much as there is. */
  lemma TrimCutsSpace(s: string)
    ensures IsTrimmed(Trim(s))
    ensures exists a, b :: Blank(a) && Blank(b) && s == a + Trim(s) + b
  {
    var t := TrimLeft(s);
    TrimLeftCuts(s);
    TrimRightCuts(t);
    var a, b := s[..|s| - |t|], t[|Trim(s)|..];
    assert s == a + Trim(s) + b;
  }

  lemma TrimTrimmed(s: string)
    ensures IsTrimmed(s) ==> Trim(s) == s
    ensures Trim(Trim(s)) == Trim(s)
  {
    TrimCutsSpace(s);
  }

  /** One to five decimal digits. */
  predicate IsPort(s: string) {
    1 <= |s| <= 5 && forall i | 0 <= i < |s| :: IsDigit(s[i])
  }

  /** The text before and after the first hyphen. */
  function Cut(s: string): (r: Option<(string, string)>)
    ensures r.Some? ==> s == r.value.0 + "-" + r.value.1 && '-' !in r.value.0
    ensures r.None? ==> '-' !in s
  {
    if s == [] then None
    else if s[0] == '-' then Some(([], s[1..]))
    else
      match Cut(s[1..])
      case None => None
      case Some((a, b)) => Some(([s[0]] + a, b))
  }

  /** pfPortSpan. */
  function Parse(text: string): Option<Span> {
    var s := Trim(text);
    if IsPort(s) then
      var n := Number(s);
      if n < 1 || n > LAST_PORT then None else Some(Span(n, n))
    else
      match Cut(s)
      case Some((a, b)) =>
        if !IsPort(a) || !IsPort(b) then None
        else if Number(a) >= Number(b) || Number(a) < 1 || Number(b) > LAST_PORT then None
        else Some(Span(Number(a), Number(b)))
      case None => None
  }

  /** The text is this span, written as the user may write it. */
  ghost predicate Writes(text: string, span: Span) {
    || (IsPort(text) && span.first == span.last == Number(text))
    || (exists a, b :: IsPort(a) && IsPort(b) && text == a + "-" + b
                    && span == Span(Number(a), Number(b)) && span.first < span.last)
  }

  lemma {:induction false} CutAt(a: string, b: string)
    requires '-' !in a
    ensures Cut(a + "-" + b) == Some((a, b))
  {
    var s := a + "-" + b;
    if a == [] {
      assert s[1..] == b;
    } else {
      assert s[1..] == a[1..] + "-" + b;
      CutAt(a[1..], b);
      assert s[0] == a[0] && a[0] in a;
      assert [a[0]] + a[1..] == a;
    }
  }

  lemma RangesAreCut(s: string, a: string, b: string)
    requires IsPort(a) && IsPort(b) && s == a + "-" + b
    ensures Cut(s) == Some((a, b)) && !IsPort(s)
  {
    CutAt(a, b);
    assert s[|a|] == '-';
  }

  /** The parser accepts exactly the spans inside 1..65535, spaces around them aside. */
  lemma ParseIff(text: string, span: Span)
    ensures Parse(text) == Some(span) <==> Writes(Trim(text), span) && 1 <= span.first && span.last <= LAST_PORT
  {
    hide Number, Trim;
    var s := Trim(text);
    if Writes(s, span) && !(IsPort(s) && span.first == span.last == Number(s)) {
      var a, b :| IsPort(a) && IsPort(b) && s == a + "-" + b && span == Span(Number(a), Number(b)) && span.first < span.last;
      RangesAreCut(s, a, b);
    }
  }

  lemma {:induction false} DigitsOf(n: nat, k: nat)
    requires 1 <= k && n < PowTen(k)
    ensures |Decimal(n)| <= k
  {
    if k > 1 && n >= 10 {
      DigitsOf(n / 10, k - 1);
    }
  }

  function PowTen(k: nat): nat {
    if k == 0 then 1 else 10 * PowTen(k - 1)
  }

  lemma PortIsWritten(n: nat)
    requires n <= LAST_PORT
    ensures IsPort(Decimal(n)) && Number(Decimal(n)) == n
  {
    assert PowTen(5) == 100000 by {
      assert PowTen(3) == 1000;
    }
    DigitsOf(n, 5);
    NumberOfDecimal(n);
  }

  /** Printing a span and reading it back gives the span. */
  lemma ParseOfPrinted(span: Span)
    requires 1 <= span.first <= span.last <= LAST_PORT
    ensures Parse(if span.first == span.last then Decimal(span.first)
                  else Decimal(span.first) + "-" + Decimal(span.last)) == Some(span)
  {
    PortIsWritten(span.first);
    PortIsWritten(span.last);
    var a, b := Decimal(span.first), Decimal(span.last);
    var s := if span.first == span.last then a else a + "-" + b;
    assert s[0] == a[0] && (s[|s| - 1] == a[|a| - 1] || s[|s| - 1] == b[|b| - 1]);
    assert IsTrimmed(s);
    hide Trim, Number, Decimal;
    TrimTrimmed(s);
    assert Writes(s, span);
    ParseIff(s, span);
  }

  predicate In(port: int, span: Span) {
    span.first <= port <= span.last
  }

  /** pfRangesOverlap. */
  predicate Overlap(a: Span, b: Span) {
    a.first <= b.last && b.first <= a.last
  }

  /** Two ranges overlap if and only if they share a port. */
  lemma OverlapIffShared(a: Span, b: Span)
    requires a.first <= a.last && b.first <= b.last
    ensures Overlap(a, b) <==> exists port: nat :: In(port, a) && In(port, b)
  {
    if Overlap(a, b) {
      assert In(Max(a.first, b.first), a) && In(Max(a.first, b.first), b);
    }
  }
}
