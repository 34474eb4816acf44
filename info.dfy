/** The info normaliser: make_hash and the operations that return its records
    (get_info, get_history) or read one position of the tuple (get_name). */
module Info {
  import opened Common
  import opened Text
  import opened Store

  /** The named form of an object_info tuple. */
  datatype ObjectInfo = ObjectInfo(
    objectId: int,
    objectName: string,
    objectReference: string,
    objectReferenceVersioned: string,
    typeString: string,
    saveDate: string,
    version: int,
    savedBy: string,
    workspaceId: int,
    workspaceName: string,
    checksum: string,
    size: int,
    metadata: Option<map<string, string>>)  // None is the null an empty metadata map becomes

  /** make_hash: every position copied to its name, the two reference strings built
      from the workspace id, object id and version, and empty metadata made null. */
  function MakeHash(i: ObjectInfoTuple): (o: ObjectInfo)
    ensures o.metadata.None? <==> i.metadata == map[]
    ensures o.metadata.Some? ==> o.metadata.value == i.metadata
    ensures Split(o.objectReference, '/') == [IntToString(i.workspaceId), IntToString(i.objectId)]
    ensures Split(o.objectReferenceVersioned, '/')
            == [IntToString(i.workspaceId), IntToString(i.objectId), IntToString(i.version)]
    ensures o.objectId == i.objectId && o.objectName == i.objectName
    ensures o.typeString == i.typeString && o.saveDate == i.saveDate
    ensures o.version == i.version && o.savedBy == i.savedBy
    ensures o.workspaceId == i.workspaceId && o.workspaceName == i.workspaceName
    ensures o.checksum == i.checksum && o.size == i.size
  {
    RefStringPieces(i.workspaceId, i.objectId);
    VersionedRefStringPieces(i.workspaceId, i.objectId, i.version);
    var omd := if i.metadata == map[] then None else Some(i.metadata);
    ObjectInfo(
      objectId := i.objectId,
      objectName := i.objectName,
      objectReference := RefString(i.workspaceId, i.objectId),
      objectReferenceVersioned := VersionedRefString(i.workspaceId, i.objectId, i.version),
      typeString := i.typeString,
      saveDate := i.saveDate,
      version := i.version,
      savedBy := i.savedBy,
      workspaceId := i.workspaceId,
      workspaceName := i.workspaceName,
      checksum := i.checksum,
      size := i.size,
      metadata := omd)
  }

  /** The tuple a normalised record came from: null metadata is the empty map. */
  function Unhash(o: ObjectInfo): ObjectInfoTuple
  {
    ObjectInfoTuple(o.objectId, o.objectName, o.typeString, o.saveDate, o.version,
                    o.savedBy, o.workspaceId, o.workspaceName, o.checksum, o.size,
                    if o.metadata.Some? then o.metadata.value else map[])
  }

  /** make_hash loses nothing: the tuple can be recovered from the record. */
  lemma MakeHashLossless(i: ObjectInfoTuple)
    ensures Unhash(MakeHash(i)) == i
  {
  }

  /** The example of the service's tests: object 523209 version 1 in workspace 1779,
      saved without metadata. */
  lemma MakeHashExample(i: ObjectInfoTuple)
    requires i.workspaceId == 1779 && i.objectId == 523209 && i.version == 1
    requires i.metadata == map[]
    ensures MakeHash(i).objectReference == "1779/523209"
    ensures MakeHash(i).objectReferenceVersioned == "1779/523209/1"
    ensures MakeHash(i).metadata == None
  {
    Decimal1779();
    Decimal523209();
    assert NatToString(1) == [DigitChar(1)] == "1";
  }

  lemma Decimal1779()
    ensures NatToString(1779) == "1779"
  {
    assert DigitChar(1) == '1' && DigitChar(7) == '7' && DigitChar(9) == '9';
    calc {
      NatToString(1779);
      NatToString(177) + [DigitChar(9)];
      NatToString(17) + [DigitChar(7)] + [DigitChar(9)];
      NatToString(1) + [DigitChar(7)] + [DigitChar(7)] + [DigitChar(9)];
      "1779";
    }
  }

  lemma Decimal523209()
    ensures NatToString(523209) == "523209"
  {
    assert NatToString(5) == "5" by { assert DigitChar(5) == '5'; }
    assert NatToString(52) == "52" by { assert DigitChar(2) == '2'; }
    assert NatToString(523) == "523" by { assert DigitChar(3) == '3'; }
    assert NatToString(5232) == "5232" by { assert DigitChar(2) == '2'; }
    assert NatToString(52320) == "52320" by { assert DigitChar(0) == '0'; }
    assert NatToString(523209) == "523209" by { assert DigitChar(9) == '9'; }
  }

  /** get_info: the normalised info of the object ref names. */
  function GetInfo(ws: Workspace, ref: string): (r: Result<ObjectInfo>)
    ensures r.Success? <==> ref in ws.objects
    ensures r.Success? ==> r.value == MakeHash(ws.objects[ref].info)
    // Follows from the clause above and MakeHashLossless.
    ensures r.Success? ==> Unhash(r.value) == ws.objects[ref].info
    ensures r.Failure? ==> r.error == NotFound(ref)
  {
    var obj :- GetObject(ws, ref);
    Success(MakeHash(obj.info))
  }

  /** get_name: position 1 of the object's info tuple. */
  function GetName(ws: Workspace, ref: string): (r: Result<string>)
    ensures r.Success? <==> ref in ws.objects
    ensures r.Success? ==> r.value == ws.objects[ref].info.objectName
    ensures r.Failure? ==> r.error == NotFound(ref)
  {
    var obj :- GetObject(ws, ref);
    Success(obj.info.objectName)
  }

  /** get_history: one normalised record per version the workspace lists, in its order. */
  method GetHistory(ws: Workspace, ref: string) returns (r: Result<seq<ObjectInfo>>)
    ensures r.Success? <==> ref in ws.history
    ensures r.Failure? ==> r.error == NotFound(ref)
    ensures r.Success? ==> |r.value| == |ws.history[ref]|
    ensures r.Success? ==> forall k :: 0 <= k < |r.value| ==> r.value[k] == MakeHash(ws.history[ref][k])
    // Follows from the clause above and MakeHashLossless.
    ensures r.Success? ==> forall k :: 0 <= k < |r.value| ==> Unhash(r.value[k]) == ws.history[ref][k]
  {
    if ref !in ws.history {
      return Failure(NotFound(ref));
    }
    var versions := ws.history[ref];
    var records: seq<ObjectInfo> := [];
    for n := 0 to |versions|
      invariant |records| == n
      invariant forall k :: 0 <= k < n ==> records[k] == MakeHash(versions[k])
    {
      records := records + [MakeHash(versions[n])];
    }
    r := Success(records);
  }
}
