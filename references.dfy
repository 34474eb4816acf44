/** The reference parser: get_id and get_version split a 'ws/obj[/ver]'
    reference on '/' and accept two or three pieces. */
module References {
  import opened Common
  import opened Text
  import opened Store
  import opened Info

  /** A reference has two pieces (one '/') or three pieces (two '/'). */
  predicate WellFormed(ref: string)
  {
    Occurrences(ref, '/') == 1 || Occurrences(ref, '/') == 2
  }

  /** get_id: the object id, the second '/'-piece read as an integer. */
  function GetId(ref: string): (r: Result<int>)
    ensures !WellFormed(ref) ==> r == Failure(InvalidReference(ref))
    ensures WellFormed(ref) ==> (r.Success? <==> ParseNat(Split(ref, '/')[1]).Some?)
    ensures WellFormed(ref) && r.Failure? ==> r.error == NotAnInteger(Split(ref, '/')[1])
    ensures r.Success? ==> r.value >= 0 && WellFormed(ref)
    ensures r.Success? ==> ParseNat(Split(ref, '/')[1]) == Some(r.value)
  {
    var pieces := Split(ref, '/');
    if |pieces| != 2 && |pieces| != 3 then Failure(InvalidReference(ref))
    else match ParseNat(pieces[1])
      case Some(n) => Success(n)
      case None => Failure(NotAnInteger(pieces[1]))
  }

  /** get_id reads back the object id that make_hash formatted into either reference. */
  lemma GetIdOfFormattedReference(i: ObjectInfoTuple)
    requires i.objectId >= 0
    ensures GetId(MakeHash(i).objectReference) == Success(i.objectId)
    ensures GetId(MakeHash(i).objectReferenceVersioned) == Success(i.objectId)
  {
    var o := MakeHash(i);
    ParseNatToString(i.objectId);
  }

  /** The service's test: get_id('1779/523209/1') is 523209. */
  lemma GetIdExample()
    ensures GetId("1779/523209/1") == Success(523209)
  {
    var i := ObjectInfoTuple(523209, "", "", "", 1, "", 1779, "", "", 0, map[]);
    MakeHashExample(i);
    GetIdOfFormattedReference(i);
  }

  /** get_version as written: a three-piece reference gives its third piece
      unchanged; a two-piece reference fetches the object and then raises
      TypeError, because str() is called with the keyword no_data. */
  function GetVersion(ws: Workspace, ref: string): (r: Result<string>)
    ensures !WellFormed(ref) ==> r == Failure(InvalidReference(ref))
    ensures Occurrences(ref, '/') == 2 ==> r.Success? && r.value == Split(ref, '/')[2]
    ensures Occurrences(ref, '/') == 1 ==>
              r == Failure(if ref in ws.objects then StrKeywordError else NotFound(ref))
  {
    var pieces := Split(ref, '/');
    if |pieces| == 2 then
      var obj :- GetObject(ws, ref);
      Failure(StrKeywordError)
    else if |pieces| == 3 then Success(pieces[2])
    else Failure(InvalidReference(ref))
  }

  /** get_version as evidently intended: a two-piece reference gives the
      version of the object it names, formatted as a decimal string. */
  function GetVersionCorrected(ws: Workspace, ref: string): (r: Result<string>)
    ensures !WellFormed(ref) ==> r == Failure(InvalidReference(ref))
    ensures Occurrences(ref, '/') == 2 ==> r == GetVersion(ws, ref)
    ensures Occurrences(ref, '/') == 1 ==> (r.Success? <==> ref in ws.objects)
    ensures Occurrences(ref, '/') == 1 && r.Success? ==>
              r.value == IntToString(ws.objects[ref].info.version)
    ensures Occurrences(ref, '/') == 1 && r.Success? && ws.objects[ref].info.version >= 0 ==>
              ParseNat(r.value) == Some(ws.objects[ref].info.version)
  {
    var pieces := Split(ref, '/');
    if |pieces| == 2 then
      var obj :- GetObject(ws, ref);
      if obj.info.version >= 0 then ParseNatToString(obj.info.version); Success(IntToString(obj.info.version))
      else Success(IntToString(obj.info.version))
    else if |pieces| == 3 then Success(pieces[2])
    else Failure(InvalidReference(ref))
  }

  /** Both readings of get_version give back the version make_hash formatted
      into the versioned reference. */
  lemma GetVersionOfFormattedReference(ws: Workspace, i: ObjectInfoTuple)
    ensures GetVersion(ws, MakeHash(i).objectReferenceVersioned) == Success(IntToString(i.version))
    ensures GetVersionCorrected(ws, MakeHash(i).objectReferenceVersioned) == Success(IntToString(i.version))
  {
  }

  /** The discrepancy, on the reference of the service's tests: '1779/523209'
      names a stored object, yet get_version as written raises on it, while the
      corrected reading answers '1'. */
  lemma GetVersionTwoPieceDiscrepancy(ws: Workspace, i: ObjectInfoTuple)
    requires i.workspaceId == 1779 && i.objectId == 523209 && i.version == 1
    requires i.metadata == map[]
    requires "1779/523209" in ws.objects && ws.objects["1779/523209"].info == i
    ensures GetVersion(ws, "1779/523209") == Failure(StrKeywordError)
    ensures GetVersionCorrected(ws, "1779/523209") == Success("1")
  {
    MakeHashExample(i);
    assert NatToString(1) == "1" by { assert DigitChar(1) == '1'; }
  }
}
