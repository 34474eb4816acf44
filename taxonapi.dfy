/** The service's taxon operations: the single-field getters, get_provenance,
    and get_all_data, which gathers every field of a taxon into one record. */
module TaxonApi {
  import opened Common
  import opened Text
  import opened Store
  import opened Info
  import opened Referrers
  import opened Lineage

  // ---------------------------------------------------------------------------
  // Single-field getters
  // ---------------------------------------------------------------------------

  /** get_parent: the parent reference, "" when the data has no parent key; a null
      parent fails the generated check that the result is a string. */
  function GetParent(ws: Workspace, ref: string): (r: Result<string>)
    ensures r.Success? <==> ref in ws.objects && !ws.objects[ref].data.parent.NullParent?
    ensures r.Success? && ws.objects[ref].data.parent.NoParentKey? ==> r.value == ""
    ensures r.Success? && ws.objects[ref].data.parent.ParentRef? ==> r.value == ws.objects[ref].data.parent.ref
    ensures ref !in ws.objects ==> r == Failure(NotFound(ref))
    ensures ref in ws.objects && ws.objects[ref].data.parent.NullParent? ==> r == Failure(ReturnTypeError("get_parent"))
  {
    var data :- GetData(ws, ref);
    match data.parent
    case NoParentKey => Success("")
    case NullParent => Failure(ReturnTypeError("get_parent"))
    case ParentRef(p) => Success(p)
  }

  /** A required key of the data: its value, or KeyError naming it. */
  function Required<T>(field: Option<T>, key: string): (r: Result<T>)
    ensures r.Success? <==> field.Some?
    ensures r.Success? ==> r.value == field.value
    ensures r.Failure? ==> r.error == KeyError(key)
  {
    match field
    case Some(v) => Success(v)
    case None => Failure(KeyError(key))
  }

  /** get_scientific_name */
  function GetScientificName(ws: Workspace, ref: string): (r: Result<string>)
    ensures r.Success? <==> ref in ws.objects && ws.objects[ref].data.scientificName.Some?
    ensures r.Success? ==> r.value == ws.objects[ref].data.scientificName.value
    ensures ref in ws.objects && r.Failure? ==> r.error == KeyError("scientific_name")
    ensures ref !in ws.objects ==> r == Failure(NotFound(ref))
  {
    var data :- GetData(ws, ref);
    Required(data.scientificName, "scientific_name")
  }

  /** get_taxonomic_id */
  function GetTaxonomicId(ws: Workspace, ref: string): (r: Result<int>)
    ensures r.Success? <==> ref in ws.objects && ws.objects[ref].data.taxonomyId.Some?
    ensures r.Success? ==> r.value == ws.objects[ref].data.taxonomyId.value
    ensures ref in ws.objects && r.Failure? ==> r.error == KeyError("taxonomy_id")
    ensures ref !in ws.objects ==> r == Failure(NotFound(ref))
  {
    var data :- GetData(ws, ref);
    Required(data.taxonomyId, "taxonomy_id")
  }

  /** get_kingdom */
  function GetKingdom(ws: Workspace, ref: string): (r: Result<string>)
    ensures r.Success? <==> ref in ws.objects && ws.objects[ref].data.kingdom.Some?
    ensures r.Success? ==> r.value == ws.objects[ref].data.kingdom.value
    ensures ref in ws.objects && r.Failure? ==> r.error == KeyError("kingdom")
    ensures ref !in ws.objects ==> r == Failure(NotFound(ref))
  {
    var data :- GetData(ws, ref);
    Required(data.kingdom, "kingdom")
  }

  /** get_domain */
  function GetDomain(ws: Workspace, ref: string): (r: Result<string>)
    ensures r.Success? <==> ref in ws.objects && ws.objects[ref].data.domain.Some?
    ensures r.Success? ==> r.value == ws.objects[ref].data.domain.value
    ensures ref in ws.objects && r.Failure? ==> r.error == KeyError("domain")
    ensures ref !in ws.objects ==> r == Failure(NotFound(ref))
  {
    var data :- GetData(ws, ref);
    Required(data.domain, "domain")
  }

  /** get_genetic_code */
  function GetGeneticCode(ws: Workspace, ref: string): (r: Result<int>)
    ensures r.Success? <==> ref in ws.objects && ws.objects[ref].data.geneticCode.Some?
    ensures r.Success? ==> r.value == ws.objects[ref].data.geneticCode.value
    ensures ref in ws.objects && r.Failure? ==> r.error == KeyError("genetic_code")
    ensures ref !in ws.objects ==> r == Failure(NotFound(ref))
  {
    var data :- GetData(ws, ref);
    Required(data.geneticCode, "genetic_code")
  }

  /** get_aliases: the aliases, or the empty list when the data has none. */
  function GetAliases(ws: Workspace, ref: string): (r: Result<seq<string>>)
    ensures r.Success? <==> ref in ws.objects
    ensures r.Success? && ws.objects[ref].data.aliases.Some? ==> r.value == ws.objects[ref].data.aliases.value
    ensures r.Success? && ws.objects[ref].data.aliases.None? ==> r.value == []
    ensures ref !in ws.objects ==> r == Failure(NotFound(ref))
  {
    var data :- GetData(ws, ref);
    Success(if data.aliases.Some? then data.aliases.value else [])
  }

  /** Each piece with its surrounding whitespace removed. */
  function StripAll(pieces: seq<string>): (r: seq<string>)
    ensures |r| == |pieces|
    ensures forall k :: 0 <= k < |r| ==> r[k] == Strip(pieces[k])
  {
    seq(|pieces|, k requires 0 <= k < |pieces| => Strip(pieces[k]))
  }

  /** get_scientific_lineage: the lineage string split on ';', each unit stripped. */
  function GetScientificLineage(ws: Workspace, ref: string): (r: Result<seq<string>>)
    ensures r.Success? <==> ref in ws.objects && ws.objects[ref].data.scientificLineage.Some?
    ensures ref in ws.objects && r.Failure? ==> r.error == KeyError("scientific_lineage")
    // The count of units follows from the next clause and Split's own contract.
    ensures r.Success? ==> |r.value| == Occurrences(ws.objects[ref].data.scientificLineage.value, ';') + 1
    ensures r.Success? ==> r.value == StripAll(Split(ws.objects[ref].data.scientificLineage.value, ';'))
    ensures ref !in ws.objects ==> r == Failure(NotFound(ref))
  {
    var data :- GetData(ws, ref);
    var lineage :- Required(data.scientificLineage, "scientific_lineage");
    Success(StripAll(Split(lineage, ';')))
  }

  /** Each unit of a lineage is free of ';' and of whitespace at either end. */
  lemma ScientificLineageUnits(ws: Workspace, ref: string)
    requires GetScientificLineage(ws, ref).Success?
    ensures var units := GetScientificLineage(ws, ref).value;
            forall k :: 0 <= k < |units| ==>
              ';' !in units[k] && (|units[k]| > 0 ==> !IsSpace(units[k][0]) && !IsSpace(units[k][|units[k]| - 1]))
  {
    var lineage := ws.objects[ref].data.scientificLineage.value;
    var pieces := Split(lineage, ';');
    SplitPiecesAreSeparatorFree(lineage, ';');
    var units := GetScientificLineage(ws, ref).value;
    forall k | 0 <= k < |units| ensures ';' !in units[k] {
      StripRemovesOnlyOuterSpace(pieces[k]);
      var i := LeadingSpaces(pieces[k]);
      assert units[k] == pieces[k][i..i + |units[k]|];
    }
  }

  /** A lineage stored as its units joined by ';' comes back unit for unit, provided
      no unit holds ';' or begins or ends with whitespace. */
  lemma ScientificLineageOfJoin(ws: Workspace, ref: string, units: seq<string>)
    requires |units| >= 1
    requires forall k :: 0 <= k < |units| ==> ';' !in units[k] && Strip(units[k]) == units[k]
    requires ref in ws.objects && ws.objects[ref].data.scientificLineage == Some(Join(units, ';'))
    ensures GetScientificLineage(ws, ref) == Success(units)
  {
    JoinSplit(units, ';');
    assert GetScientificLineage(ws, ref) == Success(StripAll(Split(Join(units, ';'), ';')));
    assert StripAll(units) == units;
  }

  // ---------------------------------------------------------------------------
  // get_provenance
  // ---------------------------------------------------------------------------

  /** The workspace's provenance keys and the names the service gives them, in order. */
  const CopyKeys: seq<(string, string)> := [
    ("time", "time"),
    ("service", "service_name"),
    ("service_ver", "service_version"),
    ("method", "service_method"),
    ("method_params", "method_parameters"),
    ("script", "script_name"),
    ("script_ver", "script_version"),
    ("script_command_line", "script_command_line"),
    ("input_ws_objects", "input_object_references"),
    ("resolved_ws_objects", "validated_object_references"),
    ("intermediate_incoming", "intermediate_input_ids"),
    ("intermediate_outgoing", "intermediate_output_ids"),
    ("external_data", "external_data"),
    ("description", "description")]

  predicate IsEmptyList(v: ProvValue)
  {
    v.List? && |v.items| == 0
  }

  /** Whether the renaming copies the workspace key k of action. */
  predicate Copied(action: ProvenanceAction, k: string)
  {
    k in action && !IsEmptyList(action[k])
  }

  /** The renamed copy of action made from the first keys of the table. */
  function CopyAction(keys: seq<(string, string)>, action: ProvenanceAction): map<string, ProvValue>
    decreases |keys|
  {
    if |keys| == 0 then map[]
    else
      var (k, name) := keys[|keys| - 1];
      var done := CopyAction(keys[..|keys| - 1], action);
      if Copied(action, k) then done[name := action[k]] else done
  }

  /** No two rows of the table give the same name. */
  predicate DistinctNames(keys: seq<(string, string)>)
  {
    forall i, j :: 0 <= i < j < |keys| ==> keys[i].1 != keys[j].1
  }

  /** The renaming holds a name exactly when its workspace key is present with a value
      other than an empty list, and then holds that value; it holds no other name. */
  lemma {:induction false} CopyActionContents(keys: seq<(string, string)>, action: ProvenanceAction)
    requires DistinctNames(keys)
    ensures forall i :: 0 <= i < |keys| ==>
              (keys[i].1 in CopyAction(keys, action) <==> Copied(action, keys[i].0))
    ensures forall i :: 0 <= i < |keys| && Copied(action, keys[i].0) ==>
              CopyAction(keys, action)[keys[i].1] == action[keys[i].0]
    ensures forall name :: name in CopyAction(keys, action) ==>
              exists i :: 0 <= i < |keys| && keys[i].1 == name
    decreases |keys|
  {
    if |keys| > 0 {
      var prefix := keys[..|keys| - 1];
      assert DistinctNames(prefix);
      CopyActionContents(prefix, action);
      forall name | name in CopyAction(keys, action)
        ensures exists i :: 0 <= i < |keys| && keys[i].1 == name
      {
        if name != keys[|keys| - 1].1 {
          var i :| 0 <= i < |prefix| && prefix[i].1 == name;
          assert keys[i].1 == name;
        }
      }
    }
  }

  /** The service's table gives fourteen distinct names. */
  lemma CopyKeysDistinct()
    ensures |CopyKeys| == 14 && DistinctNames(CopyKeys)
  {
  }

  /** get_provenance: every action the workspace records for ref, renamed. */
  method GetProvenance(ws: Workspace, ref: string) returns (r: Result<seq<map<string, ProvValue>>>)
    ensures r.Success? <==> ref in ws.provenance
    ensures r.Failure? ==> r.error == NotFound(ref)
    ensures r.Success? ==> |r.value| == |ws.provenance[ref]|
    ensures r.Success? ==>
              forall n :: 0 <= n < |r.value| ==> r.value[n] == CopyAction(CopyKeys, ws.provenance[ref][n])
  {
    if ref !in ws.provenance {
      return Failure(NotFound(ref));
    }
    var prov := ws.provenance[ref];
    var returnVal: seq<map<string, ProvValue>> := [];
    for n := 0 to |prov|
      invariant |returnVal| == n
      invariant forall m :: 0 <= m < n ==> returnVal[m] == CopyAction(CopyKeys, prov[m])
    {
      var objectProvenance := prov[n];
      var action: map<string, ProvValue> := map[];
      for j := 0 to |CopyKeys|
        invariant action == CopyAction(CopyKeys[..j], objectProvenance)
      {
        assert CopyKeys[..j + 1][..j] == CopyKeys[..j];
        var (k, name) := CopyKeys[j];
        if k in objectProvenance {
          if !IsEmptyList(objectProvenance[k]) {
            action := action[name := objectProvenance[k]];
          }
        }
      }
      assert CopyKeys[..|CopyKeys|] == CopyKeys;
      returnVal := returnVal + [action];
    }
    r := Success(returnVal);
  }

  // ---------------------------------------------------------------------------
  // get_all_data
  // ---------------------------------------------------------------------------

  /** The parameters of get_all_data; None is a flag left out of the call. */
  datatype GetAllDataParams = GetAllDataParams(
    ref: string,
    includeDecoratedScientificLineage: Option<int>,
    includeDecoratedChildren: Option<int>,
    excludeChildren: Option<int>)

  /** A flag is on only when it is given and equals 1. */
  predicate On(flag: Option<int>)
  {
    flag == Some(1)
  }

  /** The record get_all_data returns. A None in parent, kingdom or aliases is a
      null value; a None in children or a decorated list is a key left out. */
  datatype TaxonRecord = TaxonRecord(
    parent: Option<string>,
    children: Option<seq<string>>,
    scientificLineage: string,
    scientificName: string,
    taxonomicId: int,
    kingdom: Option<string>,
    domain: string,
    geneticCode: int,
    aliases: Option<seq<string>>,
    info: ObjectInfo,
    decoratedScientificLineage: Option<seq<TaxonInfo>>,
    decoratedChildren: Option<seq<TaxonInfo>>)

  /** The parent entry: the reference, or null when the key is missing or null. */
  function ParentEntry(link: ParentLink): Option<string>
  {
    if link.ParentRef? then Some(link.ref) else None
  }

  /** The lineage walk gets a ranking only where it is asked for. */
  ghost predicate AllDataReady(ws: Workspace, params: GetAllDataParams, rank: string -> nat)
  {
    On(params.includeDecoratedScientificLineage) ==> ChainRanked(ws, rank)
  }

  /** What get_all_data returns or raises, fields taken in the order it takes them. */
  function AllDataOf(ws: Workspace, params: GetAllDataParams, rank: string -> nat): Result<TaxonRecord>
    requires AllDataReady(ws, params, rank)
  {
    var ref := params.ref;
    var obj :- GetObject(ws, ref);
    var data := obj.data;
    var children :-
      if On(params.excludeChildren) then Success(None)
      else var c :- ReferrersOfTypeSpec(ws, ref, TaxonTypes); Success(Some(c));
    var lineage :- Required(data.scientificLineage, "scientific_lineage");
    var name :- Required(data.scientificName, "scientific_name");
    var taxonomicId :- Required(data.taxonomyId, "taxonomy_id");
    var domain :- Required(data.domain, "domain");
    var geneticCode :- Required(data.geneticCode, "genetic_code");
    var decoratedLineage :-
      if On(params.includeDecoratedScientificLineage) then
        var l :- DecoratedLineageOf(ws, ref, rank); Success(Some(l))
      else Success(None);
    var decoratedChildren :-
      if On(params.includeDecoratedChildren) then
        var l :- DecoratedChildrenOf(ws, ref); Success(Some(l))
      else Success(None);
    Success(TaxonRecord(
      parent := ParentEntry(data.parent),
      children := children,
      scientificLineage := lineage,
      scientificName := name,
      taxonomicId := taxonomicId,
      kingdom := data.kingdom,
      domain := domain,
      geneticCode := geneticCode,
      aliases := data.aliases,
      info := MakeHash(obj.info),
      decoratedScientificLineage := decoratedLineage,
      decoratedChildren := decoratedChildren))
  }

  /** get_all_data */
  method GetAllData(ws: Workspace, params: GetAllDataParams, ghost rank: string -> nat)
    returns (r: Result<TaxonRecord>)
    requires AllDataReady(ws, params, rank)
    ensures r == AllDataOf(ws, params, rank)
  {
    var ref := params.ref;
    var obj :- GetObject(ws, ref);
    var data := obj.data;
    var parent := ParentEntry(data.parent);
    var children: Option<seq<string>> := None;
    if !On(params.excludeChildren) {
      var c :- GetChildren(ws, ref);
      children := Some(c);
    }
    var lineage :- Required(data.scientificLineage, "scientific_lineage");
    var name :- Required(data.scientificName, "scientific_name");
    var taxonomicId :- Required(data.taxonomyId, "taxonomy_id");
    var kingdom := data.kingdom;
    var domain :- Required(data.domain, "domain");
    var geneticCode :- Required(data.geneticCode, "genetic_code");
    var aliases: Option<seq<string>> := None;
    if data.aliases.Some? {
      aliases := data.aliases;
    }
    var info := MakeHash(obj.info);
    var decoratedLineage: Option<seq<TaxonInfo>> := None;
    if On(params.includeDecoratedScientificLineage) {
      var l :- DecoratedScientificLineage(ws, ref, rank);
      decoratedLineage := Some(l);
    }
    var decoratedChildren: Option<seq<TaxonInfo>> := None;
    if On(params.includeDecoratedChildren) {
      var l :- GetDecoratedChildren(ws, ref);
      decoratedChildren := Some(l);
    }
    r := Success(TaxonRecord(parent, children, lineage, name, taxonomicId, kingdom, domain,
                             geneticCode, aliases, info, decoratedLineage, decoratedChildren));
  }

  /** get_all_data succeeds exactly when the object is stored, its five required keys
      are present, and every part it is asked for succeeds. */
  lemma AllDataSucceeds(ws: Workspace, params: GetAllDataParams, rank: string -> nat)
    requires AllDataReady(ws, params, rank)
    ensures AllDataOf(ws, params, rank).Success? <==>
              && params.ref in ws.objects
              && (On(params.excludeChildren) || ReferrersOfTypeSpec(ws, params.ref, TaxonTypes).Success?)
              && GetScientificLineage(ws, params.ref).Success?
              && GetScientificName(ws, params.ref).Success?
              && GetTaxonomicId(ws, params.ref).Success?
              && GetDomain(ws, params.ref).Success?
              && GetGeneticCode(ws, params.ref).Success?
              && (On(params.includeDecoratedScientificLineage) ==> DecoratedLineageOf(ws, params.ref, rank).Success?)
              && (On(params.includeDecoratedChildren) ==> DecoratedChildrenOf(ws, params.ref).Success?)
  {
  }

  /** Each field of get_all_data's record agrees with the getter for that field, and
      the optional keys are present exactly when their flags ask for them. */
  lemma AllDataAgreesWithGetters(ws: Workspace, params: GetAllDataParams, rank: string -> nat)
    requires AllDataReady(ws, params, rank)
    requires AllDataOf(ws, params, rank).Success?
    ensures var d := AllDataOf(ws, params, rank).value;
            var ref := params.ref;
            && Success(d.scientificName) == GetScientificName(ws, ref)
            && Success(d.taxonomicId) == GetTaxonomicId(ws, ref)
            && Success(d.domain) == GetDomain(ws, ref)
            && Success(d.geneticCode) == GetGeneticCode(ws, ref)
            && d.scientificLineage == ws.objects[ref].data.scientificLineage.value
            && Success(StripAll(Split(d.scientificLineage, ';'))) == GetScientificLineage(ws, ref)
            && Success(d.info) == GetInfo(ws, ref)
            && (d.kingdom.Some? ==> Success(d.kingdom.value) == GetKingdom(ws, ref))
            && (d.kingdom.None? <==> GetKingdom(ws, ref).Failure?)
            && (d.children.Some? <==> !On(params.excludeChildren))
            && (d.children.Some? ==> Success(d.children.value) == ReferrersOfTypeSpec(ws, ref, TaxonTypes))
            && (d.decoratedScientificLineage.Some? <==> On(params.includeDecoratedScientificLineage))
            && (d.decoratedScientificLineage.Some? ==>
                  Success(d.decoratedScientificLineage.value) == DecoratedLineageOf(ws, ref, rank))
            && (d.decoratedChildren.Some? <==> On(params.includeDecoratedChildren))
            && (d.decoratedChildren.Some? ==>
                  Success(d.decoratedChildren.value) == DecoratedChildrenOf(ws, ref))
  {
  }

  /** The two sentinels for "no parent" differ: where the data has no parent key,
      get_parent answers "" and get_all_data's parent is null; where the parent is
      null, get_parent fails while get_all_data's parent is null; otherwise both give
      the reference. The same holds for aliases: get_aliases defaults to [] where
      get_all_data keeps null. */
  lemma AllDataParentAndAliases(ws: Workspace, params: GetAllDataParams, rank: string -> nat)
    requires AllDataReady(ws, params, rank)
    requires AllDataOf(ws, params, rank).Success?
    ensures var d := AllDataOf(ws, params, rank).value;
            var link := ws.objects[params.ref].data.parent;
            && (link.NoParentKey? ==> d.parent.None? && GetParent(ws, params.ref) == Success(""))
            && (link.NullParent? ==> d.parent.None? && GetParent(ws, params.ref).Failure?)
            && (link.ParentRef? ==> d.parent.Some? && GetParent(ws, params.ref) == Success(d.parent.value))
    ensures AllDataOf(ws, params, rank).value.aliases == ws.objects[params.ref].data.aliases
    ensures var d := AllDataOf(ws, params, rank).value;
            && (d.aliases.Some? ==> GetAliases(ws, params.ref) == Success(d.aliases.value))
            && (d.aliases.None? ==> GetAliases(ws, params.ref) == Success([]))
  {
  }
}
