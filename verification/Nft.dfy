/**
 An nftables chain as the firewall services use it: rules are appended, listed, and
 deleted by the handle found in a listed line whose comment contains a tag.
 */
module Nft {
  import opened Common

  /** What a rule says: its body and its quoted comment. */
  datatype Line<Body> = Line(body: Body, comment: string)

  datatype Rule<Body> = Rule(handle: nat, line: Line<Body>)

  /** The comment text of a rule, as the kernel lists it: quotes included. */
  function Comment(prefix: string, id: nat): string {
    "\"" + prefix + Decimal(id) + "\""
  }

  /** The text searched for in a listed line. */
  function Tag(prefix: string, id: nat): string {
    prefix + Decimal(id) + "\""
  }

  predicate HasTag<Body>(l: Line<Body>, tags: seq<string>) {
    exists i | 0 <= i < |tags| :: Contains(l.comment, tags[i])
  }

  // ---- Tags hit one id ----

  /** A prefix has no quote in it and does not end in a digit. */
  predicate IsPrefix(p: string) {
    |p| > 0 && !IsDigit(p[|p| - 1]) && forall i :: 0 <= i < |p| ==> p[i] != '"'
  }

  predicate EndsWith(s: string, end: string) {
    |end| <= |s| && s[|s| - |end|..] == end
  }

  lemma DecimalInjective(i: nat, j: nat)
    requires Decimal(i) == Decimal(j)
    ensures i == j
  {
    NumberOfDecimal(i);
    NumberOfDecimal(j);
  }

  lemma QuotesAtTheEnds(p: string, i: nat, x: nat)
    requires IsPrefix(p) && 0 < x < |Comment(p, i)| - 1
    ensures Comment(p, i)[x] != '"'
  {
    var digits := Decimal(i);
    hide Decimal, Number;
    var inner := p + digits;
    assert Comment(p, i) == "\"" + inner + "\"";
    assert Comment(p, i)[x] == inner[x - 1];
    if x <= |p| {
      assert inner[x - 1] == p[x - 1];
    } else {
      assert IsDigit(digits[x - 1 - |p|]);
    }
  }

  /** A tag can only be found at the end of a comment: there is no quote inside. */
  lemma TagIsAtTheEnd(p: string, q: string, i: nat, j: nat, k: nat)
    requires IsPrefix(p) && IsPrefix(q)
    requires OccursAt(Comment(p, i), Tag(q, j), k)
    ensures EndsWith(Comment(p, i), Tag(q, j))
  {
    hide Decimal;
    var c, t := Comment(p, i), Tag(q, j);
    var m := k + |t| - 1;
    assert t[|t| - 1] == '"';
    assert c[m] == c[k..k + |t|][|t| - 1];
    hide Comment, Tag;
    if m < |c| - 1 {
      QuotesAtTheEnds(p, i, m);
    }
  }

  /** The digits at the end of a text are as long as they can be, so they agree. */
  lemma SameDigits(p: string, q: string, a: string, b: string)
    requires |p| > 0 && !IsDigit(p[|p| - 1]) && |q| > 0 && !IsDigit(q[|q| - 1])
    requires forall x :: 0 <= x < |a| ==> IsDigit(a[x])
    requires forall x :: 0 <= x < |b| ==> IsDigit(b[x])
    requires EndsWith(p + a, q + b)
    ensures a == b && EndsWith(p, q)
  {
    var s, t := p + a, q + b;
    var d := |s| - |t|;
    assert forall x :: 0 <= x < |t| ==> t[x] == s[d + x];
    assert t[|q| - 1] == s[d + |q| - 1];
    if d < |p| {
      assert s[|p| - 1] == t[|p| - 1 - d];
    }
    assert |a| == |b|;
    assert a == s[|p|..] && b == t[|q|..];
    assert forall x :: 0 <= x < |a| ==> a[x] == b[x];
    assert p[|p| - |q|..] == q;
  }

  lemma OccursAtOneId(p: string, q: string, i: nat, j: nat)
    requires IsPrefix(p) && IsPrefix(q) && EndsWith(Comment(p, i), Tag(q, j))
    ensures i == j && EndsWith("\"" + p, q)
  {
    hide Decimal;
    var c, t, quoted := Comment(p, i), Tag(q, j), "\"" + p;
    var body, tail := quoted + Decimal(i), q + Decimal(j);
    assert c == body + "\"" && t == tail + "\"";
    assert body[|body| - |tail|..] == tail by {
      assert c[|c| - |t|..][..|tail|] == tail;
    }
    hide *;
    DecimalIsDigits(i);
    DecimalIsDigits(j);
    PrefixEnds(p);
    PrefixEnds(q);
    EndsIs(body, tail);
    SameDigits(quoted, q, Decimal(i), Decimal(j));
    DecimalInjective(i, j);
  }

  lemma EndsIs(s: string, end: string)
    requires |end| <= |s| && s[|s| - |end|..] == end
    ensures EndsWith(s, end)
  {
  }

  lemma DecimalIsDigits(i: nat)
    ensures forall x :: 0 <= x < |Decimal(i)| ==> IsDigit(Decimal(i)[x])
  {
    hide Decimal;
  }

  lemma PrefixEnds(p: string)
    requires IsPrefix(p)
    ensures |p| > 0 && !IsDigit(p[|p| - 1]) && ("\"" + p)[|p|] == p[|p| - 1]
  {
  }

  lemma OwnTagOccurs(p: string, q: string, i: nat)
    requires EndsWith("\"" + p, q)
    ensures Contains(Comment(p, i), Tag(q, i))
  {
    hide Decimal;
    var c, t, quoted := Comment(p, i), Tag(q, i), "\"" + p;
    var k := |c| - |t|;
    assert quoted == quoted[..|quoted| - |q|] + q;
    assert c == quoted[..|quoted| - |q|] + t;
    assert OccursAt(c, t, k);
  }

  /**
   Searching a comment for a tag finds the rules of one id only: `12` is not found by
   the tag of `2`, nor the other way round.
   */
  lemma TagHitsOneId(p: string, q: string, i: nat, j: nat)
    requires IsPrefix(p) && IsPrefix(q)
    ensures Contains(Comment(p, i), Tag(q, j)) <==> i == j && EndsWith("\"" + p, q)
  {
    hide IsPrefix, Comment, Tag, EndsWith, OccursAt;
    if Contains(Comment(p, i), Tag(q, j)) {
      var k: nat :| k <= |Comment(p, i)| && OccursAt(Comment(p, i), Tag(q, j), k);
      TagIsAtTheEnd(p, q, i, j, k);
      OccursAtOneId(p, q, i, j);
    } else if i == j && EndsWith("\"" + p, q) {
      OwnTagOccurs(p, q, i);
    }
  }

  // ---- The chain ----

  function Lines<Body>(rules: seq<Rule<Body>>): seq<Line<Body>> {
    seq(|rules|, i requires 0 <= i < |rules| => rules[i].line)
  }

  class Chain<Body> {
    var rules: seq<Rule<Body>>
    var next: nat
    ghost var faults: nat // commands that failed

    constructor ()
      ensures Valid() && Lines(rules) == [] && faults == 0
    {
      rules, next, faults := [], 1, 0;
    }

    /** Handles are given out in order, so no two rules share one. */
    ghost predicate Valid()
      reads this
    {
      Ordered(rules) && forall r :: r in rules ==> r.handle < next
    }

    /** nft add rule; it may be refused. */
    method Add(line: Line<Body>) returns (ok: bool)
      requires Valid()
      modifies this
      ensures Valid() && faults == if ok then old(faults) else old(faults) + 1
      ensures Lines(rules) == if ok then Lines(old(rules)) + [line] else Lines(old(rules))
    {
      if * {
        faults := faults + 1;
        return false;
      }
      rules := rules + [Rule(next, line)];
      next := next + 1;
      ok := true;
    }

    /** nft delete rule ... handle; it may be refused. */
    method Delete(handle: nat) returns (ok: bool)
      requires Valid()
      modifies this`rules, this`faults
      ensures faults == if ok then old(faults) else old(faults) + 1
      ensures rules == if ok then Filter(old(rules), OtherHandle(handle)) else old(rules)
    {
      if * {
        faults := faults + 1;
        return false;
      }
      rules := Filter(rules, OtherHandle(handle));
      ok := true;
    }

    /**
     List the chain and delete, line by line, what carries one of the tags.  Without a
     fault exactly the tagged rules go; with one, some of them do, and no other rule.
     Nobody is told of a fault.
     */
    method RemoveTagged(tags: seq<string>)
      requires Valid()
      modifies this`rules, this`faults
      ensures Valid() && faults >= old(faults)
      ensures faults == old(faults) ==> Lines(rules) == Filter(Lines(old(rules)), Untagged(tags))
      ensures Thinned(Lines(old(rules)), Lines(rules), tags)
    {
      ThinnedRefl(Lines(rules), tags);
      if * {
        faults := faults + 1;
        return; // the chain cannot be listed
      }
      var rest := rules;
      ghost var kept: seq<Rule<Body>>, done: seq<Rule<Body>> := [], [];
      KeptNone<Body>(tags);
      hide *;
      while rest != []
        invariant rules == kept + rest && old(rules) == done + rest && Valid()
        invariant faults >= old(faults) && Kept(done, kept, tags, faults == old(faults))
        decreases |rest|
      {
        HeadAndTail(kept, rest);
        HeadAndTail(done, rest);
        ghost var before := faults;
        ghost var gone := RemoveLine(rest[0], tags, kept, rest[1..]);
        KeptStep(done, kept, rest[0], tags, before == old(faults), gone, faults == before);
        done := done + [rest[0]];
        kept := if gone then kept else kept + [rest[0]];
        rest := rest[1..];
      }
      assert kept + rest == kept && done + rest == done;
      KeptAll(done, kept, tags, faults == old(faults));
    }

    /** One listed line: delete it if it carries a tag. */
    method RemoveLine(rule: Rule<Body>, tags: seq<string>, ghost kept: seq<Rule<Body>>, ghost rest: seq<Rule<Body>>)
      returns (ghost gone: bool)
      requires Valid() && rules == kept + ([rule] + rest)
      modifies this`rules, this`faults
      ensures Valid() && faults >= old(faults)
      ensures rules == if gone then kept + rest else kept + [rule] + rest
      ensures gone ==> HasTag(rule.line, tags)
      ensures faults == old(faults) ==> gone == HasTag(rule.line, tags)
    {
      gone := false;
      if HasTag(rule.line, tags) {
        DeletedOnce(kept, rule, rest);
        var ok := Delete(rule.handle);
        gone := ok;
      }
      assert kept + ([rule] + rest) == kept + [rule] + rest;
    }
  }

  function OtherHandle<Body>(handle: nat): Rule<Body> -> bool {
    (r: Rule<Body>) => r.handle != handle
  }

  /** `after` is `before` without some of the tagged rules. */
  ghost predicate Thinned<Body>(before: seq<Line<Body>>, after: seq<Line<Body>>, tags: seq<string>)
    decreases |before|
  {
    if before == [] then after == []
    else
      || (after != [] && after[0] == before[0] && Thinned(before[1..], after[1..], tags))
      || (HasTag(before[0], tags) && Thinned(before[1..], after, tags))
  }

  lemma {:induction false} ThinnedRefl<Body>(rules: seq<Line<Body>>, tags: seq<string>)
    ensures Thinned(rules, rules, tags)
    decreases |rules|
  {
    if rules != [] {
      ThinnedRefl(rules[1..], tags);
    }
  }

  lemma {:induction false} ThinnedFully<Body>(rules: seq<Line<Body>>, tags: seq<string>)
    ensures Thinned(rules, Filter(rules, Untagged<Body>(tags)), tags)
    decreases |rules|
  {
    hide HasTag;
    if rules != [] {
      ThinnedFully(rules[1..], tags);
    }
  }

  /** One more rule, kept, or gone if it is tagged. */
  lemma {:induction false} ThinnedSnoc<Body>(before: seq<Line<Body>>, after: seq<Line<Body>>, l: Line<Body>, tags: seq<string>)
    requires Thinned(before, after, tags)
    ensures Thinned(before + [l], after + [l], tags)
    ensures HasTag(l, tags) ==> Thinned(before + [l], after, tags)
    decreases |before|
  {
    hide HasTag;
    var more := before + [l];
    if before == [] {
      assert more == [l] && more[1..] == [] && after + [l] == [l] && [l][1..] == [];
      assert Thinned<Body>([], [], tags);
    } else {
      assert more[1..] == before[1..] + [l] && more[0] == before[0];
      if after != [] && after[0] == before[0] && Thinned(before[1..], after[1..], tags) {
        ThinnedSnoc(before[1..], after[1..], l, tags);
        assert (after + [l])[1..] == after[1..] + [l] && (after + [l])[0] == before[0];
      } else {
        ThinnedSnoc(before[1..], after, l, tags);
      }
    }
  }

  /** Selecting rules that carry none of the tags, thinning makes no difference. */
  lemma {:induction false} ThinnedSelects<Body>(before: seq<Line<Body>>, after: seq<Line<Body>>, tags: seq<string>, p: Line<Body> -> bool)
    requires Thinned(before, after, tags)
    requires forall i | 0 <= i < |before| :: p(before[i]) ==> !HasTag(before[i], tags)
    ensures Filter(after, p) == Filter(before, p)
    decreases |before|
  {
    hide HasTag;
    if before != [] {
      if after != [] && after[0] == before[0] && Thinned(before[1..], after[1..], tags) {
        ThinnedSelects(before[1..], after[1..], tags, p);
      } else {
        ThinnedSelects(before[1..], after, tags, p);
      }
    }
  }

  /** If as many selected rules are left as there were, nothing was removed. */
  lemma {:induction false} ThinnedToAll<Body>(before: seq<Line<Body>>, after: seq<Line<Body>>, tags: seq<string>, p: Line<Body> -> bool)
    requires Thinned(before, after, tags) && forall l :: HasTag(l, tags) ==> p(l)
    requires |Filter(after, p)| >= |Filter(before, p)|
    ensures after == before
    decreases |before|
  {
    hide HasTag;
    if before != [] {
      ThinnedCounts(before[1..], if after != [] then after[1..] else [], tags, p);
      if after != [] && after[0] == before[0] && Thinned(before[1..], after[1..], tags) {
        ThinnedToAll(before[1..], after[1..], tags, p);
        assert after == [after[0]] + after[1..] && before == [before[0]] + before[1..];
      } else {
        ThinnedCounts(before[1..], after, tags, p);
        assert false;
      }
    }
  }

  lemma {:induction false} ThinnedCounts<Body>(before: seq<Line<Body>>, after: seq<Line<Body>>, tags: seq<string>, p: Line<Body> -> bool)
    ensures Thinned(before, after, tags) ==> |Filter(after, p)| <= |Filter(before, p)|
    decreases |before|
  {
    hide HasTag;
    if before != [] {
      ThinnedCounts(before[1..], after, tags, p);
      if after != [] {
        ThinnedCounts(before[1..], after[1..], tags, p);
      }
    }
  }

  /** If no tagged rule is left, all of them were removed. */
  lemma ThinnedToNone<Body>(before: seq<Line<Body>>, after: seq<Line<Body>>, tags: seq<string>)
    requires Thinned(before, after, tags) && forall l :: l in after ==> !HasTag(l, tags)
    ensures after == Filter(before, Untagged<Body>(tags))
  {
    hide Thinned, HasTag;
    forall i | 0 <= i < |after| ensures Untagged<Body>(tags)(after[i]) {
      assert after[i] in after;
    }
    FilterAll(after, Untagged<Body>(tags));
    ThinnedSelects(before, after, tags, Untagged<Body>(tags));
  }

  lemma {:induction false} ThinnedMembers<Body>(before: seq<Line<Body>>, after: seq<Line<Body>>, tags: seq<string>, l: Line<Body>)
    requires Thinned(before, after, tags) && l in after
    ensures l in before
    decreases |before|
  {
    hide HasTag;
    if before != [] {
      if after[0] == before[0] && Thinned(before[1..], after[1..], tags) {
        if l != after[0] {
          ThinnedMembers(before[1..], after[1..], tags, l);
        }
      } else {
        ThinnedMembers(before[1..], after, tags, l);
      }
    }
  }

  /** Of the listed rules, `kept` are left: some tagged ones are gone, and, if `exact`, all of them. */
  ghost predicate Kept<Body>(listed: seq<Rule<Body>>, kept: seq<Rule<Body>>, tags: seq<string>, exact: bool) {
    && (exact ==> Lines(kept) == Filter(Lines(listed), Untagged(tags)))
    && Thinned(Lines(listed), Lines(kept), tags)
  }

  lemma KeptNone<Body>(tags: seq<string>)
    ensures Kept<Body>([], [], tags, true)
  {
    assert Lines<Body>([]) == [];
  }

  lemma HeadAndTail<T>(before: seq<T>, rest: seq<T>)
    requires rest != []
    ensures before + rest == before + ([rest[0]] + rest[1..]) == before + [rest[0]] + rest[1..]
  {
  }

  lemma KeptAll<Body>(listed: seq<Rule<Body>>, kept: seq<Rule<Body>>, tags: seq<string>, exact: bool)
    requires Kept(listed, kept, tags, exact)
    ensures exact ==> Lines(kept) == Filter(Lines(listed), Untagged(tags))
    ensures Thinned(Lines(listed), Lines(kept), tags)
  {
  }

  lemma KeptStep<Body>(done: seq<Rule<Body>>, kept: seq<Rule<Body>>, rule: Rule<Body>, tags: seq<string>,
                       exact: bool, gone: bool, sure: bool)
    requires Kept(done, kept, tags, exact)
    requires gone ==> HasTag(rule.line, tags)
    requires sure ==> gone == HasTag(rule.line, tags)
    ensures Kept(done + [rule], if gone then kept else kept + [rule], tags, exact && sure)
  {
    LinesSnoc(done, rule);
    LinesSnoc(kept, rule);
    ThinnedSnoc(Lines(done), Lines(kept), rule.line, tags);
    hide HasTag, Thinned;
    FilterAppend(Lines(done), [rule.line], Untagged<Body>(tags));
    FilterOne(rule.line, Untagged<Body>(tags));
  }

  function Untagged<Body>(tags: seq<string>): Line<Body> -> bool {
    (l: Line<Body>) => !HasTag(l, tags)
  }

  lemma LinesSnoc<Body>(rules: seq<Rule<Body>>, rule: Rule<Body>)
    ensures Lines(rules + [rule]) == Lines(rules) + [rule.line]
  {
  }

  lemma DeletedOnce<Body>(a: seq<Rule<Body>>, rule: Rule<Body>, b: seq<Rule<Body>>)
    requires Ordered(a + ([rule] + b))
    ensures Filter(a + ([rule] + b), OtherHandle(rule.handle)) == a + b
    ensures Ordered(a + b)
  {
    var other := OtherHandle(rule.handle);
    OrderedAround(a, rule, b);
    FilterAppend(a, [rule] + b, other);
    FilterAppend([rule], b, other);
    FilterOne(rule, other);
    FilterAll(a, other);
    FilterAll(b, other);
  }

  lemma OrderedAround<Body>(a: seq<Rule<Body>>, rule: Rule<Body>, b: seq<Rule<Body>>)
    requires Ordered(a + ([rule] + b))
    ensures forall i :: 0 <= i < |a| ==> a[i].handle < rule.handle
    ensures forall i :: 0 <= i < |b| ==> rule.handle < b[i].handle
    ensures Ordered(a + b)
  {
    var all := a + ([rule] + b);
    assert forall i :: 0 <= i < |a| ==> all[i] == a[i];
    assert forall i :: 0 <= i < |b| ==> all[|a| + 1 + i] == b[i];
    assert all[|a|] == rule;
    var left := a + b;
    forall i, j | 0 <= i < j < |left| ensures left[i].handle < left[j].handle {
      assert left[i] == all[if i < |a| then i else i + 1] && left[j] == all[if j < |a| then j else j + 1];
    }
  }

  ghost predicate Ordered<Body>(rules: seq<Rule<Body>>) {
    forall i, j :: 0 <= i < j < |rules| ==> rules[i].handle < rules[j].handle
  }

  // ---- Who owns a rule ----

  /** The rule is found by the tags of one of `ids`. */
  predicate Owned<Body>(l: Line<Body>, ids: seq<nat>, tags: nat -> seq<string>) {
    exists i | 0 <= i < |ids| :: HasTag(l, tags(ids[i]))
  }

  /** The rule carries some tag of the service. */
  ghost predicate Tagged<Body>(l: Line<Body>, tags: nat -> seq<string>) {
    exists id: nat :: HasTag(l, tags(id))
  }

  function NotOwned<Body>(ids: seq<nat>, tags: nat -> seq<string>): Line<Body> -> bool {
    (l: Line<Body>) => !Owned(l, ids, tags)
  }

  ghost function IsTagged<Body>(tags: nat -> seq<string>): Line<Body> -> bool {
    (l: Line<Body>) => Tagged(l, tags)
  }

  ghost function IsForeign<Body>(tags: nat -> seq<string>): Line<Body> -> bool {
    (l: Line<Body>) => !Tagged(l, tags)
  }

  /** Every tagged rule is owned by one of `ids`. */
  ghost predicate NoOrphans<Body>(rules: seq<Line<Body>>, ids: seq<nat>, tags: nat -> seq<string>) {
    forall l :: l in rules && Tagged(l, tags) ==> Owned(l, ids, tags)
  }

  lemma OwnedIsTagged<Body>(l: Line<Body>, ids: seq<nat>, tags: nat -> seq<string>)
    ensures Owned(l, ids, tags) ==> Tagged(l, tags)
  {
  }

  lemma UnownedMember<Body>(rules: seq<Line<Body>>, ids: seq<nat>, tags: nat -> seq<string>, l: Line<Body>)
    ensures l in Filter(rules, NotOwned(ids, tags)) <==> l in rules && !Owned(l, ids, tags)
  {
    FilterMembers(rules, NotOwned(ids, tags));
  }

  lemma NobodyOwns<Body>(rules: seq<Line<Body>>, ids: seq<nat>, tags: nat -> seq<string>)
    ensures Filter(rules, NotOwned(ids[..0], tags)) == rules
  {
    FilterAll(rules, NotOwned(ids[..0], tags));
  }

  lemma OwnedByPrefix<Body>(l: Line<Body>, ids: seq<nat>, i: nat, tags: nat -> seq<string>)
    requires i < |ids|
    ensures Owned(l, ids[..i + 1], tags) <==> Owned(l, ids[..i], tags) || HasTag(l, tags(ids[i]))
  {
    if Owned(l, ids[..i + 1], tags) {
      var k :| 0 <= k < i + 1 && HasTag(l, tags(ids[..i + 1][k]));
      assert k < i ==> HasTag(l, tags(ids[..i][k]));
    }
    if Owned(l, ids[..i], tags) {
      var k :| 0 <= k < i && HasTag(l, tags(ids[..i][k]));
      assert HasTag(l, tags(ids[..i + 1][k]));
    }
    if HasTag(l, tags(ids[i])) {
      assert HasTag(l, tags(ids[..i + 1][i]));
    }
  }

  /** Removing the rules of the ids one after the other removes what any of them owns. */
  lemma RemovedOneMore<Body>(before: seq<Line<Body>>, ids: seq<nat>, i: nat, tags: nat -> seq<string>)
    requires i < |ids|
    ensures Filter(Filter(before, NotOwned(ids[..i], tags)), Untagged<Body>(tags(ids[i])))
         == Filter(before, NotOwned(ids[..i + 1], tags))
  {
    forall l: Line<Body>
      ensures NotOwned(ids[..i + 1], tags)(l) == (NotOwned(ids[..i], tags)(l) && Untagged(tags(ids[i]))(l))
    {
      OwnedByPrefix(l, ids, i, tags);
    }
    hide Owned, HasTag, NotOwned, Untagged;
    FilterFilter(before, NotOwned(ids[..i], tags), Untagged<Body>(tags(ids[i])), NotOwned(ids[..i + 1], tags));
  }

  /** Deleting by tag and selecting the tagged rules commute; foreign rules are not concerned. */
  lemma RemovingByTag<Body>(rules: seq<Line<Body>>, id: nat, tags: nat -> seq<string>)
    ensures var left := Filter(rules, Untagged<Body>(tags(id)));
            && Filter(left, IsTagged(tags)) == Filter(Filter(rules, IsTagged(tags)), Untagged<Body>(tags(id)))
            && Filter(left, IsForeign(tags)) == Filter(rules, IsForeign(tags))
  {
    var untagged := Untagged<Body>(tags(id));
    var both := (l: Line<Body>) => Tagged(l, tags) && untagged(l);
    FilterFilter(rules, untagged, IsTagged(tags), both);
    FilterFilter(rules, IsTagged(tags), untagged, both);
    FilterFilter(rules, untagged, IsForeign(tags), IsForeign(tags));
  }

  lemma AddingTagged<Body>(rules: seq<Line<Body>>, added: seq<Line<Body>>, tags: nat -> seq<string>)
    requires forall l :: l in added ==> Tagged(l, tags)
    ensures Filter(rules + added, IsTagged(tags)) == Filter(rules, IsTagged(tags)) + added
    ensures Filter(rules + added, IsForeign(tags)) == Filter(rules, IsForeign(tags))
  {
    FilterAppend(rules, added, IsTagged(tags));
    FilterAppend(rules, added, IsForeign(tags));
    forall i | 0 <= i < |added| ensures Tagged(added[i], tags) {
      assert added[i] in added;
    }
    FilterAll(added, IsTagged(tags));
    FilterNone(added, IsForeign(tags));
  }

  /**
   Replaying: drop what the ids own, then append `all`.  Afterwards the tagged rules are
   exactly `all` if and only if no tagged rule was an orphan; foreign rules stay.
   */
  lemma ReplaySyncsIff<Body>(rules: seq<Line<Body>>, ids: seq<nat>, tags: nat -> seq<string>, all: seq<Line<Body>>)
    requires forall l :: l in all ==> Tagged(l, tags)
    ensures Filter(Filter(rules, NotOwned(ids, tags)) + all, IsTagged(tags)) == all <==> NoOrphans(rules, ids, tags)
    ensures Filter(Filter(rules, NotOwned(ids, tags)) + all, IsForeign(tags)) == Filter(rules, IsForeign(tags))
  {
    var kept := Filter(rules, NotOwned(ids, tags));
    AddingTagged(kept, all, tags);
    ForeignIsUnowned(rules, ids, tags);
    hide Owned, Tagged, HasTag, NotOwned, Filter;
    if NoOrphans(rules, ids, tags) {
      forall i | 0 <= i < |kept| ensures !Tagged(kept[i], tags) {
        UnownedMember(rules, ids, tags, kept[i]);
      }
      FilterNone(kept, IsTagged(tags));
    } else {
      var l :| l in rules && Tagged(l, tags) && !Owned(l, ids, tags);
      UnownedMember(rules, ids, tags, l);
      FilterMembers(kept, IsTagged(tags));
      assert l in Filter(kept, IsTagged(tags));
    }
  }

  lemma ForeignIsUnowned<Body>(rules: seq<Line<Body>>, ids: seq<nat>, tags: nat -> seq<string>)
    ensures Filter(Filter(rules, NotOwned(ids, tags)), IsForeign(tags)) == Filter(rules, IsForeign(tags))
  {
    forall l: Line<Body> ensures Owned(l, ids, tags) ==> Tagged(l, tags) {
      OwnedIsTagged(l, ids, tags);
    }
    hide Owned, Tagged, HasTag;
    FilterFilter(rules, NotOwned(ids, tags), IsForeign(tags), IsForeign(tags));
  }
}
