/** The referrer resolver: get_referrers buckets the objects that refer to a
    reference by their translated type, and get_reffers_type keeps the
    buckets whose type, up to its '-' version suffix, is accepted. */
module Referrers {
  import opened Common
  import opened Text
  import opened Store

  const TaxonTypes: seq<string> := ["KBaseGenomeAnnotations.Taxon"]
  const GenomeTypes: seq<string> := ["KBaseGenomes.Genome", "KBaseGenomeAnnotations.GenomeAnnotation"]

  /** A referrer's versioned reference, '%d/%d/%d' % (x[6], x[0], x[4]). */
  function Upa(x: ObjectInfoTuple): string
  {
    VersionedRefString(x.workspaceId, x.objectId, x.version)
  }

  /** The dict get_referrers returns: its keys in insertion order, and the list under each key. */
  datatype ReferrerMap = ReferrerMap(types: seq<string>, buckets: map<string, seq<string>>)

  /** The keys are listed once each, and are exactly the keys of the dict. */
  ghost predicate Valid(m: ReferrerMap)
  {
    && (forall i, j :: 0 <= i < j < |m.types| ==> m.types[i] != m.types[j])
    && (forall t :: t in m.buckets <==> t in m.types)
  }

  // ---------------------------------------------------------------------------
  // Specification
  // ---------------------------------------------------------------------------

  /** The raw type strings of the referrers, in listing order. */
  function RawTypes(rows: seq<ObjectInfoTuple>): seq<string>
  {
    seq(|rows|, k requires 0 <= k < |rows| => rows[k].typeString)
  }

  /** Every referrer's raw type has a translation. */
  predicate AllTranslated(rows: seq<ObjectInfoTuple>, typemap: map<string, string>)
  {
    forall k :: 0 <= k < |rows| ==> rows[k].typeString in typemap
  }

  /** The raw type of the first referrer the translation lacks: the key of the KeyError. */
  function FirstUntranslated(rows: seq<ObjectInfoTuple>, typemap: map<string, string>): (r: Option<string>)
    ensures r.None? <==> AllTranslated(rows, typemap)
    decreases |rows|
  {
    if |rows| == 0 then None
    else if rows[0].typeString !in typemap then Some(rows[0].typeString)
    else FirstUntranslated(rows[1..], typemap)
  }

  /** One append: create the list for a new key at the end of the key order, then extend it. */
  function Append(m: ReferrerMap, t: string, upa: string): ReferrerMap
  {
    if t in m.buckets then ReferrerMap(m.types, m.buckets[t := m.buckets[t] + [upa]])
    else ReferrerMap(m.types + [t], m.buckets[t := [upa]])
  }

  /** The dict built from the referrers, one append per referrer in listing order. */
  function Group(rows: seq<ObjectInfoTuple>, typemap: map<string, string>): ReferrerMap
    requires AllTranslated(rows, typemap)
    decreases |rows|
  {
    if |rows| == 0 then ReferrerMap([], map[])
    else
      var x := rows[|rows| - 1];
      Append(Group(rows[..|rows| - 1], typemap), typemap[x.typeString], Upa(x))
  }

  /** The independent reference: the versioned references of the referrers whose
      translated type satisfies keep, in listing order. */
  function UpasWhere(rows: seq<ObjectInfoTuple>, typemap: map<string, string>, keep: string -> bool): seq<string>
    requires AllTranslated(rows, typemap)
    decreases |rows|
  {
    if |rows| == 0 then []
    else
      var x := rows[|rows| - 1];
      UpasWhere(rows[..|rows| - 1], typemap, keep)
      + (if keep(typemap[x.typeString]) then [Upa(x)] else [])
  }

  /** The referrers of ref as the workspace lists them. */
  function Rows(ws: Workspace, ref: string): seq<ObjectInfoTuple>
    requires ref in ws.referencing
  {
    ws.referencing[ref]
  }

  /** The translation the workspace gives for the raw types of ref's referrers. */
  function TypeMap(ws: Workspace, ref: string): map<string, string>
    requires ref in ws.referencing
  {
    ws.translate(RawTypes(Rows(ws, ref)))
  }

  /** What get_referrers returns or raises. */
  function ReferrersOf(ws: Workspace, ref: string): Result<ReferrerMap>
  {
    if ref !in ws.referencing then Failure(NotFound(ref))
    else
      match FirstUntranslated(Rows(ws, ref), TypeMap(ws, ref))
      case Some(t) => Failure(KeyError(t))
      case None => Success(Group(Rows(ws, ref), TypeMap(ws, ref)))
  }

  /** object_type.split('-')[0]: the type name without its version suffix. */
  function TypePrefix(t: string): (p: string)
    ensures p <= t && '-' !in p
    ensures |p| < |t| ==> t[|p|] == '-'
  {
    SplitHeadIsPrefix(t, '-');
    Split(t, '-')[0]
  }

  /** The lists of the keys that keep accepts, concatenated in key order. */
  function Concat(types: seq<string>, buckets: map<string, seq<string>>, keep: string -> bool): seq<string>
    requires forall k :: 0 <= k < |types| ==> types[k] in buckets
    decreases |types|
  {
    if |types| == 0 then []
    else
      var t := types[|types| - 1];
      Concat(types[..|types| - 1], buckets, keep) + (if keep(t) then buckets[t] else [])
  }

  /** The type filter of get_reffers_type. */
  function Accepts(accepted: seq<string>): string -> bool
  {
    t => TypePrefix(t) in accepted
  }

  /** What get_reffers_type returns or raises. */
  function ReferrersOfTypeSpec(ws: Workspace, ref: string, accepted: seq<string>): Result<seq<string>>
  {
    var m :- ReferrersOf(ws, ref);
    GroupValid(Rows(ws, ref), TypeMap(ws, ref));
    Success(Concat(m.types, m.buckets, Accepts(accepted)))
  }

  // ---------------------------------------------------------------------------
  // Properties of the grouping
  // ---------------------------------------------------------------------------

  /** The error is raised exactly at the first referrer without a translation. */
  lemma {:induction false} FirstUntranslatedAt(rows: seq<ObjectInfoTuple>, typemap: map<string, string>, i: nat)
    requires i < |rows| && AllTranslated(rows[..i], typemap) && rows[i].typeString !in typemap
    ensures FirstUntranslated(rows, typemap) == Some(rows[i].typeString)
    decreases i
  {
    if i > 0 {
      assert rows[0] == rows[..i][0];
      assert rows[1..][..i - 1] == rows[..i][1..];
      FirstUntranslatedAt(rows[1..], typemap, i - 1);
    }
  }

  /** The grouping of one more referrer is one more append. */
  lemma GroupStep(rows: seq<ObjectInfoTuple>, typemap: map<string, string>, i: nat)
    requires i < |rows| && AllTranslated(rows[..i], typemap) && rows[i].typeString in typemap
    ensures AllTranslated(rows[..i + 1], typemap)
    ensures Group(rows[..i + 1], typemap)
            == Append(Group(rows[..i], typemap), typemap[rows[i].typeString], Upa(rows[i]))
  {
    assert rows[..i + 1][..i] == rows[..i];
  }

  /** get_referrers' dict lists each key once, and lists exactly its keys. */
  lemma {:induction false} GroupValid(rows: seq<ObjectInfoTuple>, typemap: map<string, string>)
    requires AllTranslated(rows, typemap)
    ensures Valid(Group(rows, typemap))
    decreases |rows|
  {
    if |rows| > 0 {
      GroupValid(rows[..|rows| - 1], typemap);
    }
  }

  /** Each bucket holds the versioned references of exactly the referrers whose type
      translates to its key, in listing order; a key is present exactly when some
      referrer's type translates to it. */
  lemma {:induction false} GroupBuckets(rows: seq<ObjectInfoTuple>, typemap: map<string, string>, t: string)
    requires AllTranslated(rows, typemap)
    ensures t in Group(rows, typemap).buckets <==> UpasWhere(rows, typemap, s => s == t) != []
    ensures t in Group(rows, typemap).buckets ==>
              Group(rows, typemap).buckets[t] == UpasWhere(rows, typemap, s => s == t)
    decreases |rows|
  {
    if |rows| > 0 {
      GroupBuckets(rows[..|rows| - 1], typemap, t);
    }
  }

  /** The index of the first referrer whose type translates to t, or the number of
      referrers when there is none. */
  function FirstIndex(rows: seq<ObjectInfoTuple>, typemap: map<string, string>, t: string): (f: nat)
    requires AllTranslated(rows, typemap)
    ensures f <= |rows|
    ensures f < |rows| ==> typemap[rows[f].typeString] == t
    ensures forall k :: 0 <= k < f ==> typemap[rows[k].typeString] != t
    decreases |rows|
  {
    if |rows| == 0 then 0
    else
      var prefix := rows[..|rows| - 1];
      var f := FirstIndex(prefix, typemap, t);
      assert forall k :: 0 <= k < |prefix| ==> prefix[k] == rows[k];
      if f < |prefix| then f
      else if typemap[rows[|rows| - 1].typeString] == t then |prefix|
      else |rows|
  }

  /** FirstIndex over one more referrer: an earlier first occurrence stays, and
      otherwise the new referrer may be the first. */
  lemma FirstIndexSnoc(rows: seq<ObjectInfoTuple>, typemap: map<string, string>, t: string)
    requires |rows| > 0 && AllTranslated(rows, typemap)
    ensures var prefix := rows[..|rows| - 1];
            var f := FirstIndex(prefix, typemap, t);
            FirstIndex(rows, typemap, t)
            == if f < |prefix| then f
               else if typemap[rows[|rows| - 1].typeString] == t then |prefix|
               else |rows|
  {
  }

  /** A key is in the dict exactly when some referrer's type translates to it. */
  lemma {:induction false} GroupKeysOccur(rows: seq<ObjectInfoTuple>, typemap: map<string, string>)
    requires AllTranslated(rows, typemap)
    ensures forall t :: t in Group(rows, typemap).buckets <==> FirstIndex(rows, typemap, t) < |rows|
    decreases |rows|
  {
    if |rows| > 0 {
      var prefix := rows[..|rows| - 1];
      GroupKeysOccur(prefix, typemap);
      forall t ensures t in Group(rows, typemap).buckets <==> FirstIndex(rows, typemap, t) < |rows| {
        FirstIndexSnoc(rows, typemap, t);
      }
    }
  }

  /** The dict's keys are listed in the order of their first occurrence among the
      referrers. */
  lemma {:induction false} GroupKeyOrder(rows: seq<ObjectInfoTuple>, typemap: map<string, string>)
    requires AllTranslated(rows, typemap)
    ensures forall i, j :: 0 <= i < j < |Group(rows, typemap).types| ==>
              FirstIndex(rows, typemap, Group(rows, typemap).types[i])
              < FirstIndex(rows, typemap, Group(rows, typemap).types[j])
    decreases |rows|
  {
    if |rows| > 0 {
      var prefix := rows[..|rows| - 1];
      var t := typemap[rows[|rows| - 1].typeString];
      GroupKeyOrder(prefix, typemap);
      GroupKeysOccur(prefix, typemap);
      GroupValid(prefix, typemap);
      var before := Group(prefix, typemap);
      var after := Group(rows, typemap);
      assert after == Append(before, t, Upa(rows[|rows| - 1]));
      // Every earlier key keeps its first occurrence in the prefix.
      forall i | 0 <= i < |before.types|
        ensures FirstIndex(prefix, typemap, before.types[i]) < |prefix|
        ensures FirstIndex(rows, typemap, before.types[i]) == FirstIndex(prefix, typemap, before.types[i])
      {
        assert before.types[i] in before.buckets;
        FirstIndexSnoc(rows, typemap, before.types[i]);
      }
      if t !in before.buckets {
        assert after.types == before.types + [t];
        FirstIndexSnoc(rows, typemap, t);
        assert FirstIndex(rows, typemap, t) == |prefix|;
      }
    }
  }

  /** Extending the list of a key already present adds its new entry to the
      selection when keep accepts that key. */
  lemma {:induction false} ConcatExtend(types: seq<string>, buckets: map<string, seq<string>>,
                                        keep: string -> bool, t: string, upa: string)
    requires forall k :: 0 <= k < |types| ==> types[k] in buckets
    requires forall i, j :: 0 <= i < j < |types| ==> types[i] != types[j]
    requires t in buckets
    ensures var b := buckets[t := buckets[t] + [upa]];
            multiset(Concat(types, b, keep))
            == multiset(Concat(types, buckets, keep)) + (if t in types && keep(t) then multiset{upa} else multiset{})
    decreases |types|
  {
    if |types| > 0 {
      var front := types[..|types| - 1];
      var last := types[|types| - 1];
      ConcatExtend(front, buckets, keep, t, upa);
      assert last == t ==> t !in front;
      assert t in types <==> t in front || t == last;
    }
  }

  /** A list for a key outside the key order does not change the selection. */
  lemma {:induction false} ConcatIgnoresOthers(types: seq<string>, buckets: map<string, seq<string>>,
                                               keep: string -> bool, t: string, b: seq<string>)
    requires forall k :: 0 <= k < |types| ==> types[k] in buckets
    requires t !in types
    ensures Concat(types, buckets[t := b], keep) == Concat(types, buckets, keep)
    decreases |types|
  {
    if |types| > 0 {
      ConcatIgnoresOthers(types[..|types| - 1], buckets, keep, t, b);
    }
  }

  /** Concatenating the kept buckets of the grouping gives, up to order, the
      versioned references of the referrers whose translated type is kept. */
  lemma {:induction false} GroupConcat(rows: seq<ObjectInfoTuple>, typemap: map<string, string>, keep: string -> bool)
    requires AllTranslated(rows, typemap)
    ensures Valid(Group(rows, typemap))
    ensures multiset(Concat(Group(rows, typemap).types, Group(rows, typemap).buckets, keep))
            == multiset(UpasWhere(rows, typemap, keep))
    decreases |rows|
  {
    GroupValid(rows, typemap);
    if |rows| > 0 {
      var prefix := rows[..|rows| - 1];
      var x := rows[|rows| - 1];
      var m := Group(prefix, typemap);
      var t := typemap[x.typeString];
      GroupConcat(prefix, typemap, keep);
      if t in m.buckets {
        ConcatExtend(m.types, m.buckets, keep, t, Upa(x));
      } else {
        ConcatIgnoresOthers(m.types, m.buckets, keep, t, [Upa(x)]);
      }
    }
  }

  /** Keeps every type. */
  predicate AnyType(t: string) { true }

  /** Keeping every type selects every referrer once. */
  lemma {:induction false} UpasWhereAll(rows: seq<ObjectInfoTuple>, typemap: map<string, string>)
    requires AllTranslated(rows, typemap)
    ensures |UpasWhere(rows, typemap, AnyType)| == |rows|
    decreases |rows|
  {
    if |rows| > 0 {
      UpasWhereAll(rows[..|rows| - 1], typemap);
    }
  }

  /** The buckets together hold exactly as many references as there are referrers. */
  lemma GroupTotalSize(rows: seq<ObjectInfoTuple>, typemap: map<string, string>)
    requires AllTranslated(rows, typemap)
    ensures Valid(Group(rows, typemap))
    ensures |Concat(Group(rows, typemap).types, Group(rows, typemap).buckets, AnyType)| == |rows|
  {
    var m := Group(rows, typemap);
    GroupConcat(rows, typemap, AnyType);
    UpasWhereAll(rows, typemap);
    assert |multiset(Concat(m.types, m.buckets, AnyType))| == |multiset(UpasWhere(rows, typemap, AnyType))|;
  }

  /** The referrer at index k has a kept type and versioned reference upa. */
  predicate Contributes(rows: seq<ObjectInfoTuple>, typemap: map<string, string>, keep: string -> bool,
                        k: int, upa: string)
    requires AllTranslated(rows, typemap)
  {
    0 <= k < |rows| && keep(typemap[rows[k].typeString]) && Upa(rows[k]) == upa
  }

  /** Every referrer with a kept type is selected. */
  lemma {:induction false} UpasWhereIncludes(rows: seq<ObjectInfoTuple>, typemap: map<string, string>,
                                             keep: string -> bool, k: int)
    requires AllTranslated(rows, typemap)
    requires 0 <= k < |rows| && keep(typemap[rows[k].typeString])
    ensures Upa(rows[k]) in UpasWhere(rows, typemap, keep)
    decreases |rows|
  {
    if k < |rows| - 1 {
      var prefix := rows[..|rows| - 1];
      assert prefix[k] == rows[k];
      UpasWhereIncludes(prefix, typemap, keep, k);
    }
  }

  /** Everything selected comes from a referrer with a kept type. */
  lemma {:induction false} UpasWhereOnlyKept(rows: seq<ObjectInfoTuple>, typemap: map<string, string>,
                                             keep: string -> bool, upa: string)
    requires AllTranslated(rows, typemap)
    requires upa in UpasWhere(rows, typemap, keep)
    ensures exists k :: Contributes(rows, typemap, keep, k, upa)
    decreases |rows|
  {
    var prefix := rows[..|rows| - 1];
    if upa in UpasWhere(prefix, typemap, keep) {
      UpasWhereOnlyKept(prefix, typemap, keep, upa);
      var k :| Contributes(prefix, typemap, keep, k, upa);
      assert rows[k] == prefix[k];
      assert Contributes(rows, typemap, keep, k, upa);
    } else {
      assert Contributes(rows, typemap, keep, |rows| - 1, upa);
    }
  }

  /** A versioned reference is selected exactly when some referrer with a kept type has it. */
  lemma UpasWhereMember(rows: seq<ObjectInfoTuple>, typemap: map<string, string>,
                        keep: string -> bool, upa: string)
    requires AllTranslated(rows, typemap)
    ensures upa in UpasWhere(rows, typemap, keep) <==> exists k :: Contributes(rows, typemap, keep, k, upa)
  {
    if upa in UpasWhere(rows, typemap, keep) {
      UpasWhereOnlyKept(rows, typemap, keep, upa);
    }
    if exists k :: Contributes(rows, typemap, keep, k, upa) {
      var k :| Contributes(rows, typemap, keep, k, upa);
      UpasWhereIncludes(rows, typemap, keep, k);
    }
  }

  /** The selection depends only on which types keep accepts. */
  lemma {:induction false} UpasWhereSameFilter(rows: seq<ObjectInfoTuple>, typemap: map<string, string>,
                                               keep: string -> bool, keep': string -> bool)
    requires AllTranslated(rows, typemap)
    requires forall t :: keep(t) == keep'(t)
    ensures UpasWhere(rows, typemap, keep) == UpasWhere(rows, typemap, keep')
    decreases |rows|
  {
    if |rows| > 0 {
      UpasWhereSameFilter(rows[..|rows| - 1], typemap, keep, keep');
    }
  }

  /** The type prefix is the type itself, or the part before a '-' version suffix. */
  lemma TypePrefixIs(t: string, p: string)
    requires '-' !in p
    ensures TypePrefix(t) == p <==> (t == p || p + "-" <= t)
  {
    var q := TypePrefix(t);
    if p + "-" <= t {
      assert t[..|p|] == p && t[|p|] == '-';
      assert q == t[..|q|];
    }
    if q == p && t != p {
      assert t[..|p| + 1] == p + "-";
    }
  }

  // ---------------------------------------------------------------------------
  // The operations
  // ---------------------------------------------------------------------------

  /** get_referrers: one listing call, one translation call for the collected raw
      types, then one append per referrer to the bucket of its translated type. */
  method GetReferrers(ws: Workspace, ref: string) returns (r: Result<ReferrerMap>)
    ensures r == ReferrersOf(ws, ref)
    ensures r.Success? ==> Valid(r.value)
  {
    if ref !in ws.referencing {
      return Failure(NotFound(ref));
    }
    var referrers := ws.referencing[ref];
    var tlist: seq<string> := [];
    for i := 0 to |referrers|
      invariant tlist == RawTypes(referrers[..i])
    {
      tlist := tlist + [referrers[i].typeString];
    }
    assert referrers[..|referrers|] == referrers;
    var typemap := ws.translate(tlist);
    assert referrers == Rows(ws, ref) && typemap == TypeMap(ws, ref);
    var types: seq<string> := [];
    var buckets: map<string, seq<string>> := map[];
    for i := 0 to |referrers|
      invariant AllTranslated(referrers[..i], typemap)
      invariant ReferrerMap(types, buckets) == Group(referrers[..i], typemap)
    {
      var x := referrers[i];
      if x.typeString !in typemap {
        FirstUntranslatedAt(referrers, typemap, i);
        return Failure(KeyError(x.typeString));
      }
      var typestring := typemap[x.typeString];
      ghost var before := ReferrerMap(types, buckets);
      if typestring !in buckets {
        types := types + [typestring];
        buckets := buckets[typestring := []];
      }
      buckets := buckets[typestring := buckets[typestring] + [Upa(x)]];
      assert typestring !in before.buckets ==> buckets == before.buckets[typestring := [Upa(x)]] by {
        assert [] + [Upa(x)] == [Upa(x)];
      }
      assert ReferrerMap(types, buckets) == Append(before, typestring, Upa(x));
      GroupStep(referrers, typemap, i);
    }
    GroupValid(referrers, typemap);
    r := Success(ReferrerMap(types, buckets));
  }

  /** get_reffers_type: the buckets whose type prefix is accepted, concatenated in
      key order, each in listing order. Up to order, the result is exactly the
      versioned references of the referrers whose translated type is accepted. */
  method ReferrersOfType(ws: Workspace, ref: string, accepted: seq<string>) returns (r: Result<seq<string>>)
    ensures r == ReferrersOfTypeSpec(ws, ref, accepted)
    ensures r.Success? <==> ref in ws.referencing && AllTranslated(Rows(ws, ref), TypeMap(ws, ref))
    ensures r.Success? ==>
              multiset(r.value) == multiset(UpasWhere(Rows(ws, ref), TypeMap(ws, ref), Accepts(accepted)))
  {
    var referrers :- GetReferrers(ws, ref);
    var children: seq<string> := [];
    for i := 0 to |referrers.types|
      invariant children == Concat(referrers.types[..i], referrers.buckets, Accepts(accepted))
    {
      var objectType := referrers.types[i];
      if TypePrefix(objectType) in accepted {
        children := children + referrers.buckets[objectType];
      }
      assert referrers.types[..i + 1][..i] == referrers.types[..i];
    }
    assert referrers.types[..|referrers.types|] == referrers.types;
    GroupConcat(Rows(ws, ref), TypeMap(ws, ref), Accepts(accepted));
    r := Success(children);
  }

  /** A taxon type: KBaseGenomeAnnotations.Taxon, with or without a version suffix. */
  predicate IsTaxonType(t: string)
  {
    t == "KBaseGenomeAnnotations.Taxon" || "KBaseGenomeAnnotations.Taxon-" <= t
  }

  /** get_children: the referrers of taxon type. */
  method GetChildren(ws: Workspace, ref: string) returns (r: Result<seq<string>>)
    ensures r == ReferrersOfTypeSpec(ws, ref, TaxonTypes)
    ensures r.Success? ==> multiset(r.value) == multiset(UpasWhere(Rows(ws, ref), TypeMap(ws, ref), IsTaxonType))
  {
    r := ReferrersOfType(ws, ref, TaxonTypes);
    if r.Success? {
      forall t ensures Accepts(TaxonTypes)(t) == IsTaxonType(t) {
        TypePrefixIs(t, "KBaseGenomeAnnotations.Taxon");
      }
      UpasWhereSameFilter(Rows(ws, ref), TypeMap(ws, ref), Accepts(TaxonTypes), IsTaxonType);
    }
  }

  /** A genome type: KBaseGenomes.Genome or KBaseGenomeAnnotations.GenomeAnnotation,
      with or without a version suffix. */
  predicate IsGenomeType(t: string)
  {
    || t == "KBaseGenomes.Genome" || "KBaseGenomes.Genome-" <= t
    || t == "KBaseGenomeAnnotations.GenomeAnnotation" || "KBaseGenomeAnnotations.GenomeAnnotation-" <= t
  }

  /** get_genome_annotations: the referrers of genome or genome-annotation type. */
  method GetGenomeAnnotations(ws: Workspace, ref: string) returns (r: Result<seq<string>>)
    ensures r == ReferrersOfTypeSpec(ws, ref, GenomeTypes)
    ensures r.Success? ==> multiset(r.value) == multiset(UpasWhere(Rows(ws, ref), TypeMap(ws, ref), IsGenomeType))
  {
    r := ReferrersOfType(ws, ref, GenomeTypes);
    if r.Success? {
      forall t ensures Accepts(GenomeTypes)(t) == IsGenomeType(t) {
        TypePrefixIs(t, "KBaseGenomes.Genome");
        TypePrefixIs(t, "KBaseGenomeAnnotations.GenomeAnnotation");
      }
      UpasWhereSameFilter(Rows(ws, ref), TypeMap(ws, ref), Accepts(GenomeTypes), IsGenomeType);
    }
  }
}
