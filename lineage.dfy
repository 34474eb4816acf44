/** The decorated views: get_decorated_scientific_lineage walks parent links
    towards the root, and get_decorated_children names every child taxon. */
module Lineage {
  import opened Common
  import opened Store
  import opened Referrers

  /** A TaxonInfo record: a reference and a scientific name. */
  datatype TaxonInfo = TaxonInfo(ref: string, scientificName: string)

  // ---------------------------------------------------------------------------
  // The upward walk
  // ---------------------------------------------------------------------------

  /** One turn of the walk on a node's data: the entry it appends, which pairs the
      parent's reference with this node's name, or None when the walk stops there
      (no parent key, a null parent, no scientific name, or the name "root"). */
  function Step(d: TaxonData): (e: Option<TaxonInfo>)
    ensures e.Some? <==> d.parent.ParentRef? && d.scientificName.Some? && d.scientificName.value != "root"
    ensures e.Some? ==> e.value.ref == d.parent.ref && e.value.scientificName == d.scientificName.value
  {
    match d.parent
    case ParentRef(p) =>
      (match d.scientificName
       case Some(name) => if name != "root" then Some(TaxonInfo(p, name)) else None
       case None => None)
    case _ => None
  }

  /** The parent links climb a well-founded order: every step of the walk goes to a
      node of smaller rank. The walk has no cycle guard, so it ends only on such stores. */
  ghost predicate ChainRanked(ws: Workspace, rank: string -> nat)
  {
    forall r :: r in ws.objects && Step(ws.objects[r].data).Some? ==>
      rank(Step(ws.objects[r].data).value.ref) < rank(r)
  }

  /** The entries the walk from ref appends, in the order it appends them, or the
      workspace error of the first node it cannot fetch. */
  function Walk(ws: Workspace, ref: string, rank: string -> nat): Result<seq<TaxonInfo>>
    requires ChainRanked(ws, rank)
    decreases rank(ref)
  {
    var d :- GetData(ws, ref);
    match Step(d)
    case None => Success([])
    case Some(e) =>
      var rest :- Walk(ws, e.ref, rank);
      Success([e] + rest)
  }

  /** The k-th node the walk visits when it appends w from ref. */
  function Node(ref: string, w: seq<TaxonInfo>, k: nat): string
    requires k <= |w|
  {
    if k == 0 then ref else w[k - 1].ref
  }

  /** An independent description of a completed walk: every visited node is stored,
      every entry is the step of the node before it, and the last node stops. */
  ghost predicate IsChain(ws: Workspace, ref: string, w: seq<TaxonInfo>)
  {
    && (forall k :: 0 <= k <= |w| ==> Node(ref, w, k) in ws.objects)
    && (forall k :: 0 <= k < |w| ==> Step(ws.objects[Node(ref, w, k)].data) == Some(w[k]))
    && Step(ws.objects[Node(ref, w, |w|)].data).None?
  }

  /** The chain from the next node, with the entry before it, is the chain from ref. */
  lemma ChainCons(ws: Workspace, ref: string, e: TaxonInfo, rest: seq<TaxonInfo>)
    requires ref in ws.objects && Step(ws.objects[ref].data) == Some(e)
    ensures IsChain(ws, ref, [e] + rest) <==> IsChain(ws, e.ref, rest)
  {
    var w := [e] + rest;
    assert w[1..] == rest;
    forall k | 0 <= k <= |rest| ensures Node(e.ref, rest, k) == Node(ref, w, k + 1) {
    }
    if IsChain(ws, e.ref, rest) {
      forall k | 0 <= k <= |w| ensures Node(ref, w, k) in ws.objects {
        if k > 0 { assert Node(ref, w, k) == Node(e.ref, rest, k - 1); }
      }
      forall k | 0 <= k < |w| ensures Step(ws.objects[Node(ref, w, k)].data) == Some(w[k]) {
        if k > 0 { assert Node(ref, w, k) == Node(e.ref, rest, k - 1); }
      }
    }
    if IsChain(ws, ref, w) {
      forall k | 0 <= k <= |rest| ensures Node(e.ref, rest, k) in ws.objects {
        assert Node(e.ref, rest, k) == Node(ref, w, k + 1);
      }
      forall k | 0 <= k < |rest| ensures Step(ws.objects[Node(e.ref, rest, k)].data) == Some(rest[k]) {
        assert Node(e.ref, rest, k) == Node(ref, w, k + 1) && w[k + 1] == rest[k];
      }
    }
  }

  /** A successful walk appends exactly the chain from ref. */
  lemma {:induction false} WalkIsChain(ws: Workspace, ref: string, rank: string -> nat)
    requires ChainRanked(ws, rank)
    requires Walk(ws, ref, rank).Success?
    ensures IsChain(ws, ref, Walk(ws, ref, rank).value)
    decreases rank(ref)
  {
    var w := Walk(ws, ref, rank).value;
    assert Node(ref, w, 0) == ref;
    var e := Step(ws.objects[ref].data);
    if e.Some? {
      WalkIsChain(ws, e.value.ref, rank);
      ChainCons(ws, ref, e.value, Walk(ws, e.value.ref, rank).value);
    }
  }

  /** The chain from ref is what the walk from ref appends. */
  lemma {:induction false} ChainIsWalk(ws: Workspace, ref: string, rank: string -> nat, w: seq<TaxonInfo>)
    requires ChainRanked(ws, rank)
    requires IsChain(ws, ref, w)
    ensures Walk(ws, ref, rank) == Success(w)
    decreases rank(ref)
  {
    assert Node(ref, w, 0) == ref;
    if |w| > 0 {
      var e := w[0];
      assert [e] + w[1..] == w;
      ChainCons(ws, ref, e, w[1..]);
      ChainIsWalk(ws, e.ref, rank, w[1..]);
    }
  }

  /** No entry of the walk carries the name "root". */
  lemma {:induction false} WalkAvoidsRoot(ws: Workspace, ref: string, rank: string -> nat)
    requires ChainRanked(ws, rank)
    requires Walk(ws, ref, rank).Success?
    ensures forall k :: 0 <= k < |Walk(ws, ref, rank).value| ==>
              Walk(ws, ref, rank).value[k].scientificName != "root"
    decreases rank(ref)
  {
    var e := Step(ws.objects[ref].data);
    if e.Some? {
      WalkAvoidsRoot(ws, e.value.ref, rank);
    }
  }

  /** list.reverse() */
  function Reverse<T>(s: seq<T>): (r: seq<T>)
    ensures |r| == |s|
    ensures forall k :: 0 <= k < |s| ==> r[k] == s[|s| - 1 - k]
    decreases |s|
  {
    if |s| == 0 then [] else Reverse(s[1..]) + [s[0]]
  }

  /** lineageList[:-1]: everything but the last element, and nothing of an empty list. */
  function DropLast<T>(s: seq<T>): (r: seq<T>)
    ensures |s| == 0 ==> r == []
    ensures |s| > 0 ==> |r| == |s| - 1 && r == s[..|s| - 1]
  {
    if |s| == 0 then [] else s[..|s| - 1]
  }

  /** What get_decorated_scientific_lineage returns or raises. */
  function DecoratedLineageOf(ws: Workspace, ref: string, rank: string -> nat): Result<seq<TaxonInfo>>
    requires ChainRanked(ws, rank)
  {
    var w :- Walk(ws, ref, rank);
    Success(DropLast(Reverse(w)))
  }

  /** The walk's entries with the one it appended first put back. */
  function Prepend(w: seq<TaxonInfo>, r: Result<seq<TaxonInfo>>): Result<seq<TaxonInfo>>
  {
    if r.Success? then Success(w + r.value) else r
  }

  /** get_decorated_scientific_lineage: climb while the node has a parent and a name
      other than "root", then reverse and drop the last entry. */
  method DecoratedScientificLineage(ws: Workspace, ref: string, ghost rank: string -> nat)
    returns (r: Result<seq<TaxonInfo>>)
    requires ChainRanked(ws, rank)
    ensures r == DecoratedLineageOf(ws, ref, rank)
  {
    var lineageList: seq<TaxonInfo> := [];
    var cur := ref;
    assert Walk(ws, ref, rank).Success? ==> [] + Walk(ws, ref, rank).value == Walk(ws, ref, rank).value;
    while true
      invariant Walk(ws, ref, rank) == Prepend(lineageList, Walk(ws, cur, rank))
      decreases rank(cur)
    {
      var parentData: Option<TaxonInfo> := None;
      ghost var here := cur;
      var fetched := GetData(ws, cur);
      if fetched.Failure? {
        assert Walk(ws, ref, rank) == Failure(fetched.error);
        return Failure(fetched.error);
      }
      var data := fetched.value;
      match data.parent {
        case ParentRef(parentRef) =>
          match data.scientificName {
            case Some(scientificName) =>
              if scientificName != "root" {
                parentData := Some(TaxonInfo(parentRef, scientificName));
                cur := parentRef;
              }
            case None =>
          }
        case _ =>
      }
      if parentData.Some? {
        assert Walk(ws, here, rank) == Prepend([parentData.value], Walk(ws, cur, rank));
        assert Walk(ws, cur, rank).Success? ==>
                 lineageList + ([parentData.value] + Walk(ws, cur, rank).value)
                 == (lineageList + [parentData.value]) + Walk(ws, cur, rank).value;
        lineageList := lineageList + [parentData.value];
      } else {
        assert Walk(ws, cur, rank) == Success([]);
        break;
      }
    }
    assert lineageList + [] == lineageList;
    r := Success(DropLast(Reverse(lineageList)));
  }

  /** The returned lineage is the walk without its first entry, from the root end:
      the entry dropped is the one carrying the starting taxon's own name, and a walk
      of at most one entry gives an empty lineage. */
  lemma DecoratedLineageDropsStart(ws: Workspace, ref: string, rank: string -> nat)
    requires ChainRanked(ws, rank)
    requires Walk(ws, ref, rank).Success?
    ensures DecoratedLineageOf(ws, ref, rank).Success?
    ensures |Walk(ws, ref, rank).value| <= 1 ==> DecoratedLineageOf(ws, ref, rank).value == []
    ensures |Walk(ws, ref, rank).value| > 0 ==>
              && DecoratedLineageOf(ws, ref, rank).value == Reverse(Walk(ws, ref, rank).value[1..])
              && Walk(ws, ref, rank).value[0].scientificName == ws.objects[ref].data.scientificName.value
  {
    var w := Walk(ws, ref, rank).value;
    if |w| > 0 {
      assert Reverse(w)[..|w| - 1] == Reverse(w[1..]);
    }
  }

  /** In a chain, the node an entry points to has the next entry's parent and name. */
  lemma ChainLink(ws: Workspace, ref: string, w: seq<TaxonInfo>, j: nat)
    requires IsChain(ws, ref, w) && 0 < j < |w|
    ensures w[j - 1].ref in ws.objects
    ensures ws.objects[w[j - 1].ref].data.parent == ParentRef(w[j].ref)
    ensures ws.objects[w[j - 1].ref].data.scientificName == Some(w[j].scientificName)
  {
    assert Node(ref, w, j) == w[j - 1].ref;
    assert Step(ws.objects[Node(ref, w, j)].data) == Some(w[j]);
  }

  /** Consecutive entries of the returned lineage are linked: the next entry's
      reference is a taxon whose parent is this entry's reference and whose name is
      this entry's name. */
  lemma DecoratedLineageLinks(ws: Workspace, ref: string, rank: string -> nat)
    requires ChainRanked(ws, rank)
    requires DecoratedLineageOf(ws, ref, rank).Success?
    ensures var l := DecoratedLineageOf(ws, ref, rank).value;
            forall k :: 0 < k < |l| ==>
              && l[k].ref in ws.objects
              && ws.objects[l[k].ref].data.parent == ParentRef(l[k - 1].ref)
              && ws.objects[l[k].ref].data.scientificName == Some(l[k - 1].scientificName)
    ensures var l := DecoratedLineageOf(ws, ref, rank).value;
            forall k :: 0 <= k < |l| ==> l[k].scientificName != "root"
  {
    var w := Walk(ws, ref, rank).value;
    var l := DecoratedLineageOf(ws, ref, rank).value;
    assert |l| == if |w| == 0 then 0 else |w| - 1;
    assert forall k :: 0 <= k < |l| ==> l[k] == w[|w| - 1 - k];
    WalkIsChain(ws, ref, rank);
    WalkAvoidsRoot(ws, ref, rank);
    forall k | 0 < k < |l|
      ensures && l[k].ref in ws.objects
              && ws.objects[l[k].ref].data.parent == ParentRef(l[k - 1].ref)
              && ws.objects[l[k].ref].data.scientificName == Some(l[k - 1].scientificName)
    {
      ChainLink(ws, ref, w, |w| - k);
    }
  }

  /** The taxa leaf -> A -> B -> R, where R is named "root": the walk from leaf appends
      (A, leaf), (B, nA), (R, nB) and the returned lineage is [(R, nB), (B, nA)]. */
  lemma DecoratedLineageExample(ws: Workspace, rank: string -> nat)
    requires ChainRanked(ws, rank)
    requires "leaf" in ws.objects && ws.objects["leaf"].data.parent == ParentRef("A")
             && ws.objects["leaf"].data.scientificName == Some("Leaf")
    requires "A" in ws.objects && ws.objects["A"].data.parent == ParentRef("B")
             && ws.objects["A"].data.scientificName == Some("nA")
    requires "B" in ws.objects && ws.objects["B"].data.parent == ParentRef("R")
             && ws.objects["B"].data.scientificName == Some("nB")
    requires "R" in ws.objects && ws.objects["R"].data.scientificName == Some("root")
    ensures Walk(ws, "leaf", rank)
            == Success([TaxonInfo("A", "Leaf"), TaxonInfo("B", "nA"), TaxonInfo("R", "nB")])
    ensures DecoratedLineageOf(ws, "leaf", rank)
            == Success([TaxonInfo("R", "nB"), TaxonInfo("B", "nA")])
  {
    var w := [TaxonInfo("A", "Leaf"), TaxonInfo("B", "nA"), TaxonInfo("R", "nB")];
    assert IsChain(ws, "leaf", w) by {
      assert Node("leaf", w, 0) == "leaf" && Node("leaf", w, 1) == "A";
      assert Node("leaf", w, 2) == "B" && Node("leaf", w, 3) == "R";
      assert Step(ws.objects["leaf"].data) == Some(w[0]);
      assert Step(ws.objects["A"].data) == Some(w[1]);
      assert Step(ws.objects["B"].data) == Some(w[2]);
    }
    ChainIsWalk(ws, "leaf", rank, w);
    assert Reverse(w) == [w[2], w[1], w[0]];
    assert DropLast(Reverse(w)) == [w[2], w[1]];
  }

  // ---------------------------------------------------------------------------
  // Decorated children
  // ---------------------------------------------------------------------------

  /** Each reference paired with its object's scientific name, in order; the error of
      the first reference that is not stored or has no name. */
  function Decorate(ws: Workspace, refs: seq<string>): Result<seq<TaxonInfo>>
    decreases |refs|
  {
    if |refs| == 0 then Success([])
    else
      var done :- Decorate(ws, refs[..|refs| - 1]);
      var d :- GetData(ws, refs[|refs| - 1]);
      if d.scientificName.None? then Failure(KeyError("scientific_name"))
      else Success(done + [TaxonInfo(refs[|refs| - 1], d.scientificName.value)])
  }

  /** Decoration succeeds exactly when every reference names a stored object with a
      scientific name, and then pairs each reference with that name, in order. */
  lemma {:induction false} DecorateAll(ws: Workspace, refs: seq<string>)
    ensures Decorate(ws, refs).Success? <==>
              forall k :: 0 <= k < |refs| ==>
                refs[k] in ws.objects && ws.objects[refs[k]].data.scientificName.Some?
    ensures Decorate(ws, refs).Success? ==>
              && |Decorate(ws, refs).value| == |refs|
              && forall k :: 0 <= k < |refs| ==>
                   Decorate(ws, refs).value[k]
                   == TaxonInfo(refs[k], ws.objects[refs[k]].data.scientificName.value)
    decreases |refs|
  {
    if |refs| > 0 {
      var prefix := refs[..|refs| - 1];
      DecorateAll(ws, prefix);
      assert forall k :: 0 <= k < |prefix| ==> prefix[k] == refs[k];
    }
  }

  /** Once a prefix of the references fails, the whole decoration fails the same way. */
  lemma {:induction false} DecorateFailurePersists(ws: Workspace, refs: seq<string>, i: nat)
    requires i <= |refs| && Decorate(ws, refs[..i]).Failure?
    ensures Decorate(ws, refs) == Decorate(ws, refs[..i])
    decreases |refs| - i
  {
    if i < |refs| {
      assert refs[..i + 1][..i] == refs[..i];
      DecorateFailurePersists(ws, refs, i + 1);
    } else {
      assert refs[..i] == refs;
    }
  }

  /** What get_decorated_children returns or raises. */
  function DecoratedChildrenOf(ws: Workspace, ref: string): Result<seq<TaxonInfo>>
  {
    var children :- ReferrersOfTypeSpec(ws, ref, TaxonTypes);
    Decorate(ws, children)
  }

  /** get_decorated_children: the children of ref, each with its scientific name. */
  method GetDecoratedChildren(ws: Workspace, ref: string) returns (r: Result<seq<TaxonInfo>>)
    ensures r == DecoratedChildrenOf(ws, ref)
  {
    var childrenRefs :- GetChildren(ws, ref);
    var decoratedChildren: seq<TaxonInfo> := [];
    for i := 0 to |childrenRefs|
      invariant Decorate(ws, childrenRefs[..i]) == Success(decoratedChildren)
    {
      assert childrenRefs[..i + 1][..i] == childrenRefs[..i];
      var fetched := GetData(ws, childrenRefs[i]);
      if fetched.Failure? || fetched.value.scientificName.None? {
        DecorateFailurePersists(ws, childrenRefs, i + 1);
        if fetched.Failure? {
          return Failure(fetched.error);
        }
        return Failure(KeyError("scientific_name"));
      }
      var data := fetched.value;
      decoratedChildren := decoratedChildren + [TaxonInfo(childrenRefs[i], data.scientificName.value)];
    }
    assert childrenRefs[..|childrenRefs|] == childrenRefs;
    r := Success(decoratedChildren);
  }
}
