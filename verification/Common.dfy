/** Definitions shared by the models: options, sequence filters and text. */
module Common {

  datatype Option<+T> = None | Some(value: T)

  function Max(a: int, b: int): int {
    if a >= b then a else b
  }

  /** The elements of `s` that satisfy `p`, in order. */
  function Filter<T>(s: seq<T>, p: T -> bool): seq<T> {
    if s == [] then []
    else if p(s[0]) then [s[0]] + Filter(s[1..], p)
    else Filter(s[1..], p)
  }

  lemma {:induction false} FilterAppend<T>(a: seq<T>, b: seq<T>, p: T -> bool)
    ensures Filter(a + b, p) == Filter(a, p) + Filter(b, p)
  {
    if a == [] {
      assert a + b == b;
    } else {
      assert (a + b)[1..] == a[1..] + b;
      FilterAppend(a[1..], b, p);
    }
  }

  lemma {:induction false} FilterAll<T>(s: seq<T>, p: T -> bool)
    requires forall i | 0 <= i < |s| :: p(s[i])
    ensures Filter(s, p) == s
  {
    if s != [] {
      FilterAll(s[1..], p);
    }
  }

  lemma {:induction false} FilterNone<T>(s: seq<T>, p: T -> bool)
    requires forall i | 0 <= i < |s| :: !p(s[i])
    ensures Filter(s, p) == []
  {
    if s != [] {
      FilterNone(s[1..], p);
    }
  }

  lemma {:induction false} FilterMembers<T>(s: seq<T>, p: T -> bool)
    ensures forall x :: x in Filter(s, p) <==> x in s && p(x)
  {
    if s != [] {
      FilterMembers(s[1..], p);
      assert s == [s[0]] + s[1..];
    }
  }

  lemma {:induction false} FilterFilter<T>(s: seq<T>, p: T -> bool, q: T -> bool, both: T -> bool)
    requires forall i | 0 <= i < |s| :: both(s[i]) == (p(s[i]) && q(s[i]))
    ensures Filter(Filter(s, p), q) == Filter(s, both)
  {
    if s != [] {
      FilterFilter(s[1..], p, q, both);
    }
  }

  lemma FilterOne<T>(x: T, p: T -> bool)
    ensures Filter([x], p) == if p(x) then [x] else []
  {
    assert [x][1..] == [];
  }

  lemma CutOut<T>(s: seq<T>, i: nat)
    requires i < |s|
    ensures var left := s[..i] + s[i + 1..];
            && (forall k :: 0 <= k < |left| ==> left[k] == s[if k < i then k else k + 1])
            && (forall x :: x in s <==> x in left || x == s[i])
  {
    assert s == s[..i] + [s[i]] + s[i + 1..];
  }

  /** The elements of `s`, each at its first occurrence. */
  function Firsts<T(==)>(s: seq<T>): seq<T> {
    if s == [] then []
    else
      var n := |s| - 1;
      Firsts(s[..n]) + (if s[n] in s[..n] then [] else [s[n]])
  }

  lemma {:induction false} FirstsKeepAll<T>(s: seq<T>)
    ensures forall x :: x in Firsts(s) <==> x in s
    ensures Firsts(s) == [] <==> s == []
    ensures forall i, j :: 0 <= i < j < |Firsts(s)| ==> Firsts(s)[i] != Firsts(s)[j]
  {
    if s != [] {
      FirstsKeepAll(s[..|s| - 1]);
      assert s == s[..|s| - 1] + [s[|s| - 1]];
    }
  }

  lemma FirstsStep<T>(s: seq<T>, x: T)
    ensures Firsts(s + [x]) == if x in s then Firsts(s) else Firsts(s) + [x]
  {
    assert (s + [x])[..|s|] == s;
  }

  lemma FirstsMember<T>(s: seq<T>, x: T)
    ensures x in Firsts(s) <==> x in s
  {
    FirstsKeepAll(s);
  }

  /** The first occurrences stand in the order in which they came. */
  lemma {:induction false} FirstsInOrder<T>(s: seq<T>, i: nat, j: nat)
    requires i < j < |Firsts(s)|
    ensures exists p: nat :: p < |s| && s[p] == Firsts(s)[i] && Firsts(s)[j] !in s[..p + 1]
    decreases |s|
  {
    var n := |s| - 1;
    FirstsKeepAll(s);
    assert s == s[..n] + [s[n]];
    if j < |Firsts(s[..n])| {
      FirstsInOrder(s[..n], i, j);
      var p: nat :| p < n && s[..n][p] == Firsts(s)[i] && Firsts(s)[j] !in s[..n][..p + 1];
      assert s[..n][..p + 1] == s[..p + 1] && s[p] == s[..n][p];
    } else {
      var x := Firsts(s[..n])[i];
      FirstsMember(s[..n], x);
      var p: nat :| p < n && s[..n][p] == x;
      assert s[p] == s[..n][p] && s[..p + 1] == s[..n][..p + 1];
    }
  }

  /** All pieces glued together in order. */
  function Concat<T>(pieces: seq<seq<T>>): seq<T> {
    if pieces == [] then [] else pieces[0] + Concat(pieces[1..])
  }

  lemma {:induction false} ConcatAppend<T>(a: seq<seq<T>>, b: seq<seq<T>>)
    ensures Concat(a + b) == Concat(a) + Concat(b)
  {
    if a == [] {
      assert a + b == b;
    } else {
      assert (a + b)[1..] == a[1..] + b;
      ConcatAppend(a[1..], b);
    }
  }

  lemma ConcatSnoc<T>(a: seq<seq<T>>, last: seq<T>)
    ensures Concat(a + [last]) == Concat(a) + last
  {
    ConcatAppend(a, [last]);
    assert [last][1..] == [];
    assert Concat([last]) == last + Concat([last][1..]);
  }

  predicate OccursAt(s: string, sub: string, i: nat) {
    i + |sub| <= |s| && s[i..i + |sub|] == sub
  }

  /** The substring test of Go's strings.Contains. */
  predicate Contains(s: string, sub: string) {
    exists i: nat | i <= |s| :: OccursAt(s, sub, i)
  }

  predicate IsDigit(c: char) {
    '0' <= c <= '9'
  }

  /** The decimal form of a natural number, as strconv prints it. */
  function Decimal(n: nat): (s: string)
    ensures |s| > 0
    ensures forall i | 0 <= i < |s| :: IsDigit(s[i])
  {
    var digit := [('0' as int + n % 10) as char];
    if n < 10 then digit else Decimal(n / 10) + digit
  }

  /** The number a string of digits denotes. */
  function Number(s: string): nat
    requires forall i | 0 <= i < |s| :: IsDigit(s[i])
  {
    if s == [] then 0
    else
      assert IsDigit(s[|s| - 1]);
      10 * Number(s[..|s| - 1]) + (s[|s| - 1] as int - '0' as int)
  }

  lemma {:induction false} NumberOfDecimal(n: nat)
    ensures Number(Decimal(n)) == n
  {
    var s := Decimal(n);
    if n < 10 {
      assert s[..|s| - 1] == [];
    } else {
      NumberOfDecimal(n / 10);
      assert s[..|s| - 1] == Decimal(n / 10);
    }
  }
}
