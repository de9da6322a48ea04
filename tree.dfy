/**
 * The document tree. The source links `TreeNode` objects by raw parent and
 * child pointers; here each of the two section trees is an arena, a sequence
 * of nodes addressed by index, where a node stores its parent's index and
 * the ordered list of its children.
 *
 * - `sections` is the body tree: index 0 is the main body section (`main`,
 *   empty id); every other entry is a `BodySection`. Paragraphs are leaves and
 *   are stored inline among a section's children.
 * - `summary` is the summary tree: index 0 is the main summary section;
 *   every other entry is a `SummarySection`.
 */
module Tree {
  import opened Common
  import opened Numbers

  /** A child of a body section: another section (by index) or a paragraph. */
  datatype BodyItem = Sub(index: nat) | Para(text: string)

  /** A body section: name, hierarchical id, parent and ordered children. */
  datatype Section = Section(name: string, id: seq<int>, parent: Option<nat>, children: seq<BodyItem>)

  /** A summary section: the same data, its children being summary sections only. */
  datatype Entry = Entry(name: string, id: seq<int>, parent: Option<nat>, children: seq<nat>)

  /** The section children among `items`, in order. */
  function Subs(items: seq<BodyItem>): (r: seq<nat>)
    ensures |r| <= |items|
  {
    if items == [] then []
    else (if items[0].Sub? then [items[0].index] else []) + Subs(items[1..])
  }

  /** `Subs` lists exactly the section children. */
  lemma {:induction false} SubsMembers(items: seq<BodyItem>, j: nat)
    ensures j in Subs(items) <==> Sub(j) in items
  {
    if items != [] {
      SubsMembers(items[1..], j);
      assert items == [items[0]] + items[1..];
    }
  }

  /** `Subs` lists each section child as often as it occurs among `items`. */
  lemma {:induction false} SubsCount(items: seq<BodyItem>, j: nat)
    ensures multiset(Subs(items))[j] == multiset(items)[Sub(j)]
  {
    if items != [] {
      SubsCount(items[1..], j);
      assert items == [items[0]] + items[1..];
      var head := if items[0].Sub? then [items[0].index] else [];
      assert multiset(Subs(items)) == multiset(head) + multiset(Subs(items[1..]));
      assert multiset(items) == multiset([items[0]]) + multiset(items[1..]);
    }
  }

  lemma {:induction false} SubsAppend(a: seq<BodyItem>, b: seq<BodyItem>)
    ensures Subs(a + b) == Subs(a) + Subs(b)
  {
    if a != [] {
      assert (a + b)[1..] == a[1..] + b;
      SubsAppend(a[1..], b);
      var head := if a[0].Sub? then [a[0].index] else [];
      assert (a + b)[0] == a[0];
      assert Subs(a + b) == head + Subs(a[1..] + b);
      assert head + (Subs(a[1..]) + Subs(b)) == (head + Subs(a[1..])) + Subs(b);
    } else {
      assert a + b == b;
    }
  }

  lemma SubsSingle(item: BodyItem)
    ensures Subs([item]) == if item.Sub? then [item.index] else []
  {
    assert [item][1..] == [];
  }

  /** `push_back_child` on the body tree: `item` becomes the last child of `p`. */
  function PushBackChild(sections: seq<Section>, p: nat, item: BodyItem): (r: seq<Section>)
    requires p < |sections|
    ensures |r| == |sections|
    ensures r[p].children == sections[p].children + [item]
    ensures r[p].name == sections[p].name && r[p].id == sections[p].id && r[p].parent == sections[p].parent
    ensures forall q :: 0 <= q < |sections| && q != p ==> r[q] == sections[q]
  {
    sections[p := sections[p].(children := sections[p].children + [item])]
  }

  /** Appending a paragraph adds no section child. */
  lemma SubsAfterPara(items: seq<BodyItem>, text: string)
    ensures Subs(items + [Para(text)]) == Subs(items)
  {
    SubsAppend(items, [Para(text)]);
    SubsSingle(Para(text));
    assert Subs(items) + [] == Subs(items);
  }

  /** Two body trees with the same sections: names, ids, parents and section children agree. */
  ghost predicate SameSkeleton(a: seq<Section>, b: seq<Section>) {
    |a| == |b| &&
    forall q :: 0 <= q < |a| ==>
      b[q].name == a[q].name && b[q].parent == a[q].parent && b[q].id == a[q].id &&
      Subs(b[q].children) == Subs(a[q].children)
  }

  /** Pushing a paragraph changes the body tree's contents but not its skeleton. */
  lemma ParagraphSameSkeleton(sections: seq<Section>, p: nat, text: string)
    requires p < |sections|
    ensures SameSkeleton(sections, PushBackChild(sections, p, Para(text)))
  {
    SubsAfterPara(sections[p].children, text);
  }

  /**
   * A new body section named `name` with id `id`, created and pushed back
   * under `p`; its index is the old length of the arena.
   */
  function AttachSection(sections: seq<Section>, p: nat, name: string, id: seq<int>): (r: seq<Section>)
    requires p < |sections|
    ensures |r| == |sections| + 1
    ensures r[|sections|] == Section(name, id, Some(p), [])
    ensures r[p] == sections[p].(children := sections[p].children + [Sub(|sections|)])
    ensures forall q :: 0 <= q < |sections| && q != p ==> r[q] == sections[q]
  {
    PushBackChild(sections, p, Sub(|sections|)) + [Section(name, id, Some(p), [])]
  }

  /** The same on the summary tree. */
  function AttachEntry(summary: seq<Entry>, p: nat, name: string, id: seq<int>): (r: seq<Entry>)
    requires p < |summary|
    ensures |r| == |summary| + 1
    ensures r[|summary|] == Entry(name, id, Some(p), [])
    ensures r[p] == summary[p].(children := summary[p].children + [|summary|])
    ensures forall q :: 0 <= q < |summary| && q != p ==> r[q] == summary[q]
  {
    summary[p := summary[p].(children := summary[p].children + [|summary|])] + [Entry(name, id, Some(p), [])]
  }

  /** `id.back()++`: the last component of a section id, incremented. */
  function IncrementLast(id: seq<int>): (r: seq<int>)
    requires id != []
    ensures |r| == |id| && r[..|r| - 1] == id[..|id| - 1] && r[|r| - 1] == id[|id| - 1] + 1
  {
    id[..|id| - 1] + [id[|id| - 1] + 1]
  }

  /** Incrementing the id of the k-th child of a section gives the id of the (k+1)-th. */
  lemma IncrementLastOf(base: seq<int>, k: int)
    ensures IncrementLast(base + [k]) == base + [k + 1]
  {
    var id := base + [k];
    assert id[..|id| - 1] == base;
  }

  /** Every component followed by a dot: the string `get_id_str` builds before its final `pop_back`. */
  function Dotted(id: seq<int>): (s: string)
    ensures id != [] ==> |s| > 0 && s[|s| - 1] == '.'
  {
    if id == [] then "" else Dotted(id[..|id| - 1]) + IntToString(id[|id| - 1]) + "."
  }

  /** `get_id_str`: the dotted string with its trailing dot removed. */
  function IdString(id: seq<int>): string
    requires id != []
  {
    var s := Dotted(id);
    s[..|s| - 1]
  }

  /** The components of `id` joined by dots, e.g. [2, 1, 3] gives "2.1.3". */
  function Join(id: seq<int>): string
    requires id != []
  {
    if |id| == 1 then IntToString(id[0]) else IntToString(id[0]) + "." + Join(id[1..])
  }

  lemma {:induction false} JoinSnoc(id: seq<int>, x: int)
    requires id != []
    ensures Join(id + [x]) == Join(id) + "." + IntToString(x)
  {
    if |id| > 1 {
      assert (id + [x])[1..] == id[1..] + [x];
      JoinSnoc(id[1..], x);
    }
  }

  lemma {:induction false} DottedIsJoin(id: seq<int>)
    requires id != []
    ensures Dotted(id) == Join(id) + "."
  {
    var init, last := id[..|id| - 1], id[|id| - 1];
    var d := IntToString(last);
    assert init + [last] == id;
    if |id| > 1 {
      DottedIsJoin(init);
      JoinSnoc(init, last);
    } else {
      assert Dotted(init) + d == d;
    }
  }

  /** `get_id_str` is the dot-join of the id. */
  lemma IdStringIsJoin(id: seq<int>)
    requires id != []
    ensures IdString(id) == Join(id)
  {
    DottedIsJoin(id);
    var s := Join(id);
    assert Dotted(id)[..|Dotted(id)| - 1] == s;
  }

  /** In `x + "." + y`, where `x` has no dot, the first dot follows `x`. */
  lemma FirstDot(x: string, y: string)
    requires NoDot(x)
    ensures (x + "." + y)[|x|] == '.'
    ensures forall k :: 0 <= k < |x| ==> (x + "." + y)[k] != '.'
  {
    forall k | 0 <= k < |x|
      ensures (x + "." + y)[k] != '.'
    {
      assert (x + "." + y)[k] == x[k];
    }
  }

  /** Splitting at a dot that neither head contains recovers both heads and tails. */
  lemma SplitAtDot(x: string, y: string, x': string, y': string)
    requires NoDot(x) && NoDot(x')
    requires x + "." + y == x' + "." + y'
    ensures x == x' && y == y'
  {
    var s := x + "." + y;
    FirstDot(x, y);
    FirstDot(x', y');
    assert |x| == |x'|;
    assert x == s[..|x|] == x';
    assert y == s[|x| + 1..] == y';
  }

  /** A one-component id and a longer one never join to the same string: only the longer has a dot. */
  lemma JoinSingleVsLonger(a: seq<int>, b: seq<int>)
    requires |a| == 1 && |b| > 1
    ensures Join(a) != Join(b)
  {
    var hb := IntToString(b[0]);
    FirstDot(hb, Join(b[1..]));
    if |Join(a)| > |hb| {
      assert Join(a)[|hb|] != '.';
    }
  }

  /** Distinct ids give distinct anchor strings. */
  lemma {:induction false} JoinInjective(a: seq<int>, b: seq<int>)
    requires a != [] && b != []
    requires Join(a) == Join(b)
    ensures a == b
  {
    if |a| == 1 && |b| == 1 {
      IntToStringInjective(a[0], b[0]);
    } else if |a| == 1 {
      JoinSingleVsLonger(a, b);
      assert false;
    } else if |b| == 1 {
      JoinSingleVsLonger(b, a);
      assert false;
    } else {
      SplitAtDot(IntToString(a[0]), Join(a[1..]), IntToString(b[0]), Join(b[1..]));
      IntToStringInjective(a[0], b[0]);
      JoinInjective(a[1..], b[1..]);
      assert a == [a[0]] + a[1..];
      assert b == [b[0]] + b[1..];
    }
  }

  /** `get_h`: the heading tag of a section, two levels below its id length. */
  function HeadingTag(id: seq<int>): string {
    "h" + IntToString(|id| + 2)
  }
}
