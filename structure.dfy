/**
 * What the numbering rule of `compile` guarantees about the finished body
 * tree: a section's id has one component per level of nesting, sibling
 * numbers count up from 1, and no two sections share an id.
 */
module Structure {
  import opened Common
  import opened Tree
  import opened Parser

  /** The nesting depth of section `i`: 0 for the main section, one more than its parent's otherwise. */
  ghost function Depth(sections: seq<Section>, i: nat): nat
    requires ParentLinks(sections) && i < |sections|
    decreases i
  {
    if i == 0 then 0 else 1 + Depth(sections, sections[i].parent.value)
  }

  /** A section's id has exactly as many components as the section is deep. */
  lemma {:induction false} IdLengthIsDepth(sections: seq<Section>, summary: seq<Entry>, i: nat)
    requires WellFormed(sections, summary) && i < |sections|
    ensures |sections[i].id| == Depth(sections, i)
    decreases i
  {
    if i > 0 {
      var p := sections[i].parent.value;
      ChildId(sections, i);
      IdLengthIsDepth(sections, summary, p);
    }
  }

  /** The current section of the main loop is as deep as the current level. */
  lemma CurrentDepthIsLevel(s: State)
    requires Inv(s)
    ensures Depth(s.sections, s.currentBody) == s.level
  {
    IdLengthIsDepth(s.sections, s.summary, s.currentBody);
  }

  /**
   * The section children of a section are numbered 1, 2, 3, ... in order:
   * the k-th one's id is its parent's id followed by k + 1.
   */
  lemma SiblingsCountUp(sections: seq<Section>, summary: seq<Entry>, p: nat, k: nat, k': nat)
    requires WellFormed(sections, summary) && p < |sections|
    requires k < k' < |Subs(sections[p].children)|
    ensures var a, b := Subs(sections[p].children)[k], Subs(sections[p].children)[k'];
            var n := |sections[p].id|;
            |sections[a].id| == |sections[b].id| == n + 1 &&
            sections[a].id[..n] == sections[b].id[..n] == sections[p].id &&
            sections[a].id[n] == k + 1 < sections[b].id[n] == k' + 1
  {
    var a, b := Subs(sections[p].children)[k], Subs(sections[p].children)[k'];
    var n := |sections[p].id|;
    assert sections[a].id == sections[p].id + [k + 1];
    assert sections[b].id == sections[p].id + [k' + 1];
    assert sections[a].id[..n] == sections[p].id;
    assert sections[b].id[..n] == sections[p].id;
  }

  /** The position of a non-main section among its parent's section children. */
  lemma ChildPosition(sections: seq<Section>, summary: seq<Entry>, i: nat) returns (k: nat)
    requires WellFormed(sections, summary) && 0 < i < |sections|
    ensures var p := sections[i].parent.value;
            k < |Subs(sections[p].children)| && Subs(sections[p].children)[k] == i &&
            sections[i].id == sections[p].id + [k + 1]
  {
    var p := sections[i].parent.value;
    var subs := Subs(sections[p].children);
    k :| 0 <= k < |subs| && subs[k] == i;
  }

  /** No two sections of a well-formed body tree have the same id. */
  lemma {:induction false} IdsDistinct(sections: seq<Section>, summary: seq<Entry>, i: nat, j: nat)
    requires WellFormed(sections, summary) && i < |sections| && j < |sections|
    requires sections[i].id == sections[j].id
    ensures i == j
    decreases i + j
  {
    EmptyIdIsMain(sections, summary, i);
    EmptyIdIsMain(sections, summary, j);
    if i != 0 && j != 0 {
      var p, q := sections[i].parent.value, sections[j].parent.value;
      var ki := ChildPosition(sections, summary, i);
      var kj := ChildPosition(sections, summary, j);
      var id := sections[i].id;
      assert |sections[p].id| == |sections[q].id| == |id| - 1;
      assert sections[p].id == id[..|id| - 1] == sections[q].id;
      IdsDistinct(sections, summary, p, q);
      assert id[|id| - 1] == ki + 1 == kj + 1;
    }
  }

  /** A sequence without repeated elements holds each value at most once. */
  lemma {:induction false} CountWithoutRepeats(s: seq<nat>, j: nat)
    requires forall k, k' :: 0 <= k < k' < |s| ==> s[k] != s[k']
    ensures multiset(s)[j] == if j in s then 1 else 0
  {
    if s != [] {
      assert s == [s[0]] + s[1..];
      assert forall k, k' :: 0 <= k < k' < |s[1..]| ==> s[1..][k] == s[k + 1] && s[1..][k'] == s[k' + 1];
      CountWithoutRepeats(s[1..], j);
      assert multiset(s) == multiset([s[0]]) + multiset(s[1..]);
      assert s[0] !in s[1..];
      assert j in s <==> j == s[0] || j in s[1..];
    }
  }

  /**
   * Every section but main is listed exactly once among all the children of
   * both trees: once under its parent, and nowhere else.
   */
  lemma ListedOnce(sections: seq<Section>, summary: seq<Entry>, i: nat, q: nat)
    requires WellFormed(sections, summary) && 0 < i < |sections| && q < |sections|
    ensures var n := if q == sections[i].parent.value then 1 else 0;
            multiset(sections[q].children)[Sub(i)] == n && multiset(summary[q].children)[i] == n
  {
    var subs := Subs(sections[q].children);
    forall k, k' | 0 <= k < k' < |subs|
      ensures subs[k] != subs[k']
    {
      var n := |sections[q].id|;
      assert sections[subs[k]].id[n] == k + 1;
      assert sections[subs[k']].id[n] == k' + 1;
    }
    CountWithoutRepeats(subs, i);
    SubsCount(sections[q].children, i);
    if q == sections[i].parent.value {
      assert i in subs;
    }
  }
}
