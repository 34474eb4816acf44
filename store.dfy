/** The workspace the service reads from, as an immutable value: what its
    get_objects2, list_referencing_objects, translate_to_MD5_types,
    get_object_history and get_object_provenance calls would answer. */
module Store {
  import opened Common
  import opened Text

  /** The workspace's eleven-position object_info tuple. */
  datatype ObjectInfoTuple = ObjectInfoTuple(
    objectId: int,                 // position 0
    objectName: string,            // position 1
    typeString: string,            // position 2
    saveDate: string,              // position 3
    version: int,                  // position 4
    savedBy: string,               // position 5
    workspaceId: int,              // position 6
    workspaceName: string,         // position 7
    checksum: string,              // position 8
    size: int,                     // position 9
    metadata: map<string, string>) // position 10

  /** The key parent_taxon_ref of a taxon's data: missing, null, or a reference. */
  datatype ParentLink = NoParentKey | NullParent | ParentRef(ref: string)

  /** The data of a Taxon object; None stands for a key the record lacks. */
  datatype TaxonData = TaxonData(
    parent: ParentLink,
    scientificName: Option<string>,
    scientificLineage: Option<string>,
    taxonomyId: Option<int>,
    domain: Option<string>,
    kingdom: Option<string>,
    geneticCode: Option<int>,
    aliases: Option<seq<string>>)

  /** What get_objects2 returns for one reference: info and data. */
  datatype StoredObject = StoredObject(info: ObjectInfoTuple, data: TaxonData)

  /** A value inside a provenance action. */
  datatype ProvValue =
    | Str(text: string)
    | Number(number: int)
    | List(items: seq<ProvValue>)
    | Record(fields: map<string, ProvValue>)

  /** One provenance action as the workspace returns it, keyed by the workspace's names. */
  type ProvenanceAction = map<string, ProvValue>

  datatype Workspace = Workspace(
    objects: map<string, StoredObject>,
    referencing: map<string, seq<ObjectInfoTuple>>,
    translate: seq<string> -> map<string, string>,
    history: map<string, seq<ObjectInfoTuple>>,
    provenance: map<string, seq<ProvenanceAction>>)

  /** get_object: the stored object, or the workspace's error for an unknown reference. */
  function GetObject(ws: Workspace, ref: string): (r: Result<StoredObject>)
    ensures r.Success? <==> ref in ws.objects
    ensures r.Success? ==> r.value == ws.objects[ref]
    ensures r.Failure? ==> r.error == NotFound(ref)
  {
    if ref in ws.objects then Success(ws.objects[ref]) else Failure(NotFound(ref))
  }

  /** get_data: the data part of get_object. */
  function GetData(ws: Workspace, ref: string): (r: Result<TaxonData>)
    ensures r.Success? <==> ref in ws.objects
    ensures r.Success? ==> r.value == ws.objects[ref].data
    ensures r.Failure? ==> r.error == NotFound(ref)
  {
    var obj :- GetObject(ws, ref);
    Success(obj.data)
  }

  /** '%d/%d' % (ws, obj) */
  function RefString(workspaceId: int, objectId: int): string
  {
    IntToString(workspaceId) + "/" + IntToString(objectId)
  }

  /** '%d/%d/%d' % (ws, obj, ver) */
  function VersionedRefString(workspaceId: int, objectId: int, version: int): string
  {
    RefString(workspaceId, objectId) + "/" + IntToString(version)
  }

  /** A formatted reference splits on '/' back into its formatted numbers. */
  lemma RefStringPieces(workspaceId: int, objectId: int)
    ensures Split(RefString(workspaceId, objectId), '/')
            == [IntToString(workspaceId), IntToString(objectId)]
  {
    var a, b := IntToString(workspaceId), IntToString(objectId);
    assert '/' !in a && '/' !in b;
    JoinSplit([a, b], '/');
    assert Join([b], '/') == b;
    assert Join([a, b], '/') == RefString(workspaceId, objectId);
  }

  /** A formatted versioned reference splits on '/' back into its three formatted numbers. */
  lemma VersionedRefStringPieces(workspaceId: int, objectId: int, version: int)
    ensures Split(VersionedRefString(workspaceId, objectId, version), '/')
            == [IntToString(workspaceId), IntToString(objectId), IntToString(version)]
  {
    var a, b, c := IntToString(workspaceId), IntToString(objectId), IntToString(version);
    assert '/' !in a && '/' !in b && '/' !in c;
    JoinSplit([a, b, c], '/');
    assert Join([c], '/') == c;
    assert Join([b, c], '/') == b + "/" + c;
    assert Join([a, b, c], '/') == VersionedRefString(workspaceId, objectId, version);
  }
}
