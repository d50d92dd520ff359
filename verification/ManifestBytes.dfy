// Replaying the bytes of a manifest: records, the edits in them, and the version they lead to.

module ManifestBytes {
  import opened Bytes
  import opened InternalKeys
  import opened Versions
  import opened VersionEdits
  import opened LogFormat
  import opened LogReaders
  import opened TableReads
  import opened Manifests
  import EditFormat

  // The bytes of the edit, its fields in the order of the encoder.
  ghost predicate IsRecordOf(record: seq<Byte>, e: EditFormat.Edit) {
    exists items :: EditFormat.IsItemList(e, items) && record == EditFormat.AllBytes(items)
  }

  // What the edit says of a file is true of it.
  ghost predicate AddsFile(n: (nat, EditFormat.FileFields), a: (nat, File)) {
    && n.0 == a.0 && n.1.number == a.1.number && n.1.fileSize == a.1.size
    && WellFormed(n.1.smallest) && KeyOf(n.1.smallest) == Smallest(a.1)
    && WellFormed(n.1.largest) && KeyOf(n.1.largest) == Largest(a.1)
  }

  ghost predicate Describes(e: EditFormat.Edit, edit: VersionEdit) {
    && EditFormat.Fits(e) && edit.deleted == e.deletedFiles && |edit.added| == |e.newFiles|
    && forall i | 0 <= i < |e.newFiles| :: AddsFile(e.newFiles[i], edit.added[i])
  }

  // The tables on disk, by number, are those that the edit adds.
  ghost predicate AreThere(edit: VersionEdit, tables: map<nat, File>) {
    forall i | 0 <= i < |edit.added| :: edit.added[i].1.number in tables && tables[edit.added[i].1.number] == edit.added[i].1
  }

  // The edit in a record. Expected, if anything: `e`, describing `edit`.
  method DecodeEdit(record: seq<Byte>, tables: map<nat, File>, ghost e: EditFormat.Edit, ghost edit: VersionEdit)
    returns (ok: bool, decoded: VersionEdit)
    ensures IsRecordOf(record, e) && Describes(e, edit) && AreThere(edit, tables) ==> ok && decoded == edit
  {
    hide EditFormat.IsItemList, EditFormat.AllBytes, EditFormat.ItemFits, EditFormat.TakeAll, EditFormat.Fits, KeyOf, WellFormed;
    var fields := new EditFormat.VersionEdit();
    ghost var expected := IsRecordOf(record, e) && Describes(e, edit) && AreThere(edit, tables);
    ghost var items: seq<EditFormat.Item> := [];
    if expected {
      items :| EditFormat.IsItemList(e, items) && record == EditFormat.AllBytes(items);
      EditFormat.ItemsRestore(e, fields.e, items);
    }
    assert fields.e.compactPointers == [];
    ghost var read, end;
    ok, read, end := fields.DecodeFrom(record, items);
    assert expected ==> [] + e.compactPointers == e.compactPointers;
    assert expected ==> fields.e == e;
    var added: seq<(nat, File)> := [];
    decoded := VersionEdit({}, []);
    if !ok {
      return;
    }
    for i := 0 to |fields.e.newFiles|
      invariant expected ==> fields.e == e && added == edit.added[..i]
    {
      var (level, f) := fields.e.newFiles[i];
      if expected {
        assert AddsFile(e.newFiles[i], edit.added[i]);
        assert edit.added[..i+1] == edit.added[..i] + [edit.added[i]] && edit.added[i] == (edit.added[i].0, edit.added[i].1);
      }
      if f.number !in tables {
        ok := false;
        return;
      }
      added := added + [(level, tables[f.number])];
    }
    if expected {
      assert edit.added[..|edit.added|] == edit.added;
    }
    decoded := VersionEdit(fields.e.deletedFiles, added);
  }

  ghost predicate IsManifestOf(rs: seq<seq<Byte>>, es: seq<EditFormat.Edit>, edits: seq<VersionEdit>, tables: map<nat, File>) {
    && |rs| == |es| == |edits|
    && forall i | 0 <= i < |rs| :: IsRecordOf(rs[i], es[i]) && Describes(es[i], edits[i]) && AreThere(edits[i], tables)
  }

  // The file is a manifest cut off anywhere: the version that its whole records lead to comes back.
  method RecoverVersion(file: seq<Byte>, tables: map<nat, File>, ghost rs: seq<seq<Byte>>, ghost es: seq<EditFormat.Edit>,
                        ghost edits: seq<VersionEdit>, ghost v: Version)
    returns (recovered: Version, reports: seq<Report>)
    requires file <= WrittenAll(0, rs) && IsManifestOf(rs, es, edits, tables)
    requires IsManifest(edits[..Whole(0, rs, |file|)], v)
    ensures recovered == v && reports == []
  {
    hide WrittenAll, Whole, IsManifest, IsRecordOf, Describes, AreThere;
    var records;
    records, reports := ReadLog(file, rs);
    var decoded: seq<VersionEdit> := [];
    for i := 0 to |records|
      invariant decoded == edits[..i]
    {
      var ok, edit := DecodeEdit(records[i], tables, es[i], edits[i]);
      decoded := decoded + [edit];
    }
    recovered := ReplayManifest(decoded, v);
  }

  // ---- Writing it

  method WriteManifest(es: seq<EditFormat.Edit>) returns (bytes: seq<Byte>, ghost rs: seq<seq<Byte>>)
    requires forall e | e in es :: EditFormat.Fits(e)
    ensures |rs| == |es| && (forall i | 0 <= i < |rs| :: IsRecordOf(rs[i], es[i])) && bytes == WrittenAll(0, rs)
  {
    hide WrittenAll, Written, EditFormat.Fits, EditFormat.IsItemList, EditFormat.AllBytes;
    var records: seq<seq<Byte>> := [];
    for i := 0 to |es|
      invariant |records| == i && forall j | 0 <= j < i :: IsRecordOf(records[j], es[j])
    {
      assert es[i] in es;
      var fields := new EditFormat.VersionEdit();
      fields.e := es[i];
      var record, items := fields.EncodeTo([]);
      assert record == EditFormat.AllBytes(items) && IsRecordOf(record, es[i]);
      records := records + [record];
    }
    bytes := WriteLog([], records);
    rs := records;
  }

  // Edits that describe a manifest, written and read back, lead to its version.
  method WriteAndRecover(es: seq<EditFormat.Edit>, tables: map<nat, File>, ghost edits: seq<VersionEdit>, ghost v: Version)
    returns (recovered: Version)
    requires |es| == |edits| && IsManifest(edits, v)
    requires forall i | 0 <= i < |es| :: Describes(es[i], edits[i]) && AreThere(edits[i], tables)
    ensures recovered == v
  {
    hide WrittenAll, Whole, IsManifest, IsRecordOf, AreThere, EditFormat.Fits;
    forall e | e in es
      ensures EditFormat.Fits(e)
    {
      var i :| 0 <= i < |es| && es[i] == e;
      assert Describes(es[i], edits[i]);
    }
    hide Describes;
    var bytes, rs := WriteManifest(es);
    assert rs[..|rs|] == rs && edits[..|edits|] == edits;
    WholeIsWrittenOut(0, rs, |bytes|, |rs|);
    var reports;
    recovered, reports := RecoverVersion(bytes, tables, rs, es, edits, v);
  }
}
