/** The creation side of the TUS upload endpoint (upload/handler.go): the
    `Upload-Metadata` header of the tus resumable upload protocol 1.0.0,
    whose values are base64 per RFC 4648; the file name and extension
    derived from it; the IFC test; and the answer to a creation request. */
module TusUpload {
  import opened Wrappers
  import opened GoText
  import opened Base64

  // ---------------------------------------------------------------------
  // decodeBase64

  /** The decoded text, and whether decoding succeeded (`err == nil`). */
  datatype Decoded = Decoded(text: string, ok: bool)

  /** `decodeBase64`: the standard alphabet (section 4 of RFC 4648) first,
      then the URL-safe one (section 5); when both reject the text it comes
      back unchanged with an error. */
  function DecodeBase64(s: string): (r: Decoded)
    ensures !r.ok ==> r.text == s
    ensures r.ok <==> Decode(Standard, s).Some? || Decode(UrlSafe, s).Some?
  {
    match Decode(Standard, s)
    case Some(data) => Decoded(BytesToString(data), true)
    case None =>
      match Decode(UrlSafe, s)
      case Some(data) => Decoded(BytesToString(data), true)
      case None => Decoded(s, false)
  }

  /** A value encoded in either alphabet decodes back to its bytes: where
      the standard alphabet also accepts a URL-safe text, it reads the same
      bytes from it. */
  lemma DecodeBase64Encoded(a: Alphabet, d: seq<byte>)
    ensures DecodeBase64(Encode(a, d)) == Decoded(BytesToString(d), true)
  {
    var s := Encode(a, d);
    RoundTrip(a, d);
    if a == UrlSafe && Decode(Standard, s).Some? {
      DecodeAgree(s);
    }
  }

  // ---------------------------------------------------------------------
  // parseTUSMetadata

  /** The map entry one comma-separated piece contributes: its trimmed text
      cut at the first space into a key and a base64 value.  A value that
      does not decode is kept as it is; a piece without a space (the empty
      piece included) gives its whole text as key with value "". */
  function PairEntry(piece: string): (string, string) {
    var (key, rest) := CutAtSpace(TrimSpace(piece));
    match rest
    case Some(value) => (key, DecodeBase64(value).text)
    case None => (key, "")
  }

  /** The map of a list of key/value entries in order; a later entry for a
      key replaces an earlier one. */
  function ToMap(entries: seq<(string, string)>): map<string, string>
    decreases |entries|
  {
    if |entries| == 0 then map[]
    else
      var (k, v) := entries[|entries| - 1];
      ToMap(entries[..|entries| - 1])[k := v]
  }

  lemma ToMapSnoc(entries: seq<(string, string)>, e: (string, string))
    ensures ToMap(entries + [e]) == ToMap(entries)[e.0 := e.1]
  {
    assert (entries + [e])[..|entries|] == entries;
  }

  /** Every key of the map comes from some entry. */
  lemma {:induction false} ToMapKeys(entries: seq<(string, string)>, k: string)
    requires k in ToMap(entries)
    ensures exists i :: 0 <= i < |entries| && entries[i].0 == k
    decreases |entries|
  {
    var n := |entries| - 1;
    if k != entries[n].0 {
      ToMapKeys(entries[..n], k);
      var i :| 0 <= i < n && entries[..n][i].0 == k;
      assert entries[i] == entries[..n][i];
    }
  }

  /** The key of every entry is in the map. */
  lemma {:induction false} ToMapHas(entries: seq<(string, string)>, i: nat)
    requires i < |entries|
    ensures entries[i].0 in ToMap(entries)
    decreases |entries|
  {
    var n := |entries| - 1;
    if i < n {
      ToMapHas(entries[..n], i);
      assert entries[..n][i] == entries[i];
    }
  }

  /** An entry whose key no later entry repeats decides that key's value. */
  lemma {:induction false} ToMapLast(entries: seq<(string, string)>, i: nat)
    requires i < |entries|
    requires forall j :: i < j < |entries| ==> entries[j].0 != entries[i].0
    ensures entries[i].0 in ToMap(entries) && ToMap(entries)[entries[i].0] == entries[i].1
    decreases |entries|
  {
    var n := |entries| - 1;
    if i < n {
      var front := entries[..n];
      assert front[i] == entries[i];
      forall j | i < j < |front| ensures front[j].0 != front[i].0 {
        assert front[j] == entries[j];
      }
      ToMapLast(front, i);
    }
  }

  /** The entry of each piece, in order. */
  function Pairs(pieces: seq<string>): (r: seq<(string, string)>)
    ensures |r| == |pieces|
    ensures forall i :: 0 <= i < |r| ==> r[i] == PairEntry(pieces[i])
  {
    seq(|pieces|, i requires 0 <= i < |pieces| => PairEntry(pieces[i]))
  }

  /** The map built from the pieces in order. */
  function Collect(pieces: seq<string>): map<string, string> {
    ToMap(Pairs(pieces))
  }

  /** What `parseTUSMetadata` returns for a header. */
  function Metadata(header: string): map<string, string> {
    if header == "" then map[] else Collect(Split(header, ','))
  }

  /** `parseTUSMetadata`: fills the map piece by piece. */
  method ParseTusMetadata(header: string) returns (result: map<string, string>)
    ensures result == Metadata(header)
    ensures header == "" ==> result == map[]
  {
    result := map[];
    if header == "" {
      return;
    }
    var pairs := Split(header, ',');
    for i := 0 to |pairs|
      invariant result == Collect(pairs[..i])
    {
      var pair := TrimSpace(pairs[i]);
      var (key, rest) := CutAtSpace(pair);
      if rest.Some? {
        var decoded := DecodeBase64(rest.value);
        if decoded.ok {
          result := result[key := decoded.text];
        } else {
          result := result[key := rest.value];
        }
      } else {
        result := result[key := ""];
      }
      CollectStep(pairs, i);
    }
    assert pairs[..|pairs|] == pairs;
  }

  /** One more piece adds its entry. */
  lemma CollectStep(pieces: seq<string>, i: nat)
    requires i < |pieces|
    ensures Collect(pieces[..i + 1]) == Collect(pieces[..i])[PairEntry(pieces[i]).0 := PairEntry(pieces[i]).1]
  {
    assert Pairs(pieces[..i + 1]) == Pairs(pieces[..i]) + [PairEntry(pieces[i])];
    ToMapSnoc(Pairs(pieces[..i]), PairEntry(pieces[i]));
  }

  /** Every key of the map is the key of some piece. */
  lemma CollectKeysFromPieces(pieces: seq<string>, k: string)
    ensures k in Collect(pieces) ==> exists i :: 0 <= i < |pieces| && PairEntry(pieces[i]).0 == k
  {
    if k in Collect(pieces) {
      ToMapKeys(Pairs(pieces), k);
      var i :| 0 <= i < |pieces| && Pairs(pieces)[i].0 == k;
    }
  }

  /** The key of every piece is in the map. */
  lemma PieceKeysInCollect(pieces: seq<string>, i: nat)
    requires i < |pieces|
    ensures PairEntry(pieces[i]).0 in Collect(pieces)
  {
    ToMapHas(Pairs(pieces), i);
  }

  /** When a key occurs in several pieces, the last of them decides its
      value. */
  lemma LastOccurrenceWins(pieces: seq<string>, i: nat)
    requires i < |pieces|
    requires forall j :: i < j < |pieces| ==> PairEntry(pieces[j]).0 != PairEntry(pieces[i]).0
    ensures PairEntry(pieces[i]).0 in Collect(pieces)
    ensures Collect(pieces)[PairEntry(pieces[i]).0] == PairEntry(pieces[i]).1
  {
    var e := Pairs(pieces);
    forall j | i < j < |e| ensures e[j].0 != e[i].0 {
    }
    ToMapLast(e, i);
  }

  // ---------------------------------------------------------------------
  // The header a tus client sends

  /** A key a client may send: not empty, and free of separators and white
      space. */
  predicate IsMetadataKey(k: string) {
    |k| > 0 && forall i :: 0 <= i < |k| ==> k[i] != ',' && k[i] != ' ' && !IsSpace(k[i])
  }

  /** One piece "key base64(value)", as the tus protocol writes it. */
  function EncodePair(k: string, v: seq<byte>): string {
    k + " " + Encode(Standard, v)
  }

  function EncodePieces(entries: seq<(string, seq<byte>)>): (r: seq<string>)
    ensures |r| == |entries|
    ensures forall i :: 0 <= i < |r| ==> r[i] == EncodePair(entries[i].0, entries[i].1)
  {
    seq(|entries|, i requires 0 <= i < |entries| => EncodePair(entries[i].0, entries[i].1))
  }

  /** The `Upload-Metadata` header for a list of entries. */
  function EncodeMetadata(entries: seq<(string, seq<byte>)>): string {
    Join(EncodePieces(entries), ',')
  }

  /** The entries with their values as text. */
  function Plain(entries: seq<(string, seq<byte>)>): (r: seq<(string, string)>)
    ensures |r| == |entries|
    ensures forall i :: 0 <= i < |r| ==> r[i] == (entries[i].0, BytesToString(entries[i].1))
  {
    seq(|entries|, i requires 0 <= i < |entries| => (entries[i].0, BytesToString(entries[i].1)))
  }

  /** The entries as a map, a later entry for a key replacing an earlier. */
  function EntriesMap(entries: seq<(string, seq<byte>)>): map<string, string> {
    ToMap(Plain(entries))
  }

  /** Cutting "key value" at the first space, for a key without spaces. */
  lemma CutAfterKey(k: string, rest: string)
    requires ' ' !in k
    ensures CutAtSpace(k + " " + rest) == (k, Some(rest))
  {
    var s := k + " " + rest;
    assert s[|k|] == ' ';
    var r := CutAtSpace(s);
    assert |r.0| == |k|;
    assert r.0 == s[..|k|] == k;
    assert r.1.value == s[|k| + 1..] == rest;
  }

  /** Trimming a key followed by one space leaves the key. */
  lemma TrimKeySpace(k: string)
    requires IsMetadataKey(k)
    ensures TrimSpace(k + " ") == k
  {
    var piece := k + " ";
    var t := TrimSpace(piece);
    var n := LeadingSpaces(piece);
    assert piece[0] == k[0];
    assert n == 0;
    assert piece[|k| - 1] == k[|k| - 1] && !IsSpace(piece[|k| - 1]);
    assert IsSpace(piece[|k|]);
    assert |t| == |k|;
    assert t == piece[..|k|] == k;
  }

  /** A single encoded piece reads back as its key and value. */
  lemma PairRoundTrip(k: string, v: seq<byte>)
    requires IsMetadataKey(k)
    ensures PairEntry(EncodePair(k, v)) == (k, BytesToString(v))
  {
    var e := Encode(Standard, v);
    var piece := EncodePair(k, v);
    assert ' ' !in k;
    if |e| > 0 {
      assert piece[0] == k[0];
      assert piece[|piece| - 1] == e[|e| - 1];
      assert IsEncodingChar(Standard, e[|e| - 1]);
      TrimSpaceKeeps(piece);
      CutAfterKey(k, e);
      DecodeBase64Encoded(Standard, v);
    } else {
      assert |e| == 4 * ((|v| + 2) / 3);
      assert v == [];
      assert piece == k + " ";
      TrimKeySpace(k);
    }
  }

  /** A header written by a tus client — keys without separators or white
      space, values base64 in the standard alphabet — is parsed back into
      exactly its entries. */
  lemma {:induction false} MetadataRoundTrip(entries: seq<(string, seq<byte>)>)
    requires forall i :: 0 <= i < |entries| ==> IsMetadataKey(entries[i].0)
    ensures Metadata(EncodeMetadata(entries)) == EntriesMap(entries)
  {
    var pieces := EncodePieces(entries);
    if |entries| > 0 {
      forall i | 0 <= i < |pieces|
        ensures ',' !in pieces[i]
      {
        var e := Encode(Standard, entries[i].1);
        assert pieces[i] == entries[i].0 + " " + e;
        forall j | 0 <= j < |e|
          ensures e[j] != ','
        {
          assert IsEncodingChar(Standard, e[j]);
        }
      }
      SplitJoin(pieces, ',');
      assert EncodeMetadata(entries) != "" by {
        assert |pieces[0]| > 0;
        if |pieces| > 1 {
          assert Join(pieces, ',') == pieces[0] + [','] + Join(pieces[1..], ',');
        }
      }
      CollectEncoded(entries);
    }
  }

  /** The encoded pieces parse back to the entries, one by one. */
  lemma CollectEncoded(entries: seq<(string, seq<byte>)>)
    requires forall i :: 0 <= i < |entries| ==> IsMetadataKey(entries[i].0)
    ensures Collect(EncodePieces(entries)) == EntriesMap(entries)
  {
    var pieces := EncodePieces(entries);
    forall i | 0 <= i < |entries| ensures Pairs(pieces)[i] == Plain(entries)[i] {
      PairRoundTrip(entries[i].0, entries[i].1);
    }
    assert Pairs(pieces) == Plain(entries);
  }

  // ---------------------------------------------------------------------
  // File name and extension

  /** The extension stored for an upload: the text after the last '.' of
      the final path element, or "" when it has none. */
  function FileExt(filename: string): (ext: string)
    ensures '.' !in ext && '/' !in ext
    ensures ext != "" ==> HasSuffix(filename, "." + ext)
    ensures ext == "" <==>
      (forall i :: 0 <= i < |filename| && '/' !in filename[i..] ==> filename[i] != '.') ||
      (|filename| > 0 && filename[|filename| - 1] == '.')
  {
    var e := PathExt(filename);
    if e == [] then [] else
      assert HasPrefix(e, ".");
      TrimPrefix(e, ".")
  }

  /** The file name stored without its extension. */
  function FileName(filename: string, ext: string): string {
    TrimSuffix(filename, "." + ext)
  }

  /** With an extension, name, '.' and extension give back the file name;
      without one, the name is the file name, less a trailing '.' when it
      ends in one. */
  lemma NameAndExt(filename: string)
    ensures var ext := FileExt(filename);
      ext != "" ==> FileName(filename, ext) + "." + ext == filename
    ensures var ext := FileExt(filename);
      ext == "" ==> FileName(filename, ext) == filename ||
                    FileName(filename, ext) + "." == filename
  {
    var e := PathExt(filename);
    var ext := FileExt(filename);
    if e != [] {
      assert e == "." + ext;
      assert HasSuffix(filename, "." + ext);
    }
  }

  /** `isIFCFile`: "ifc" and "ifczip" in any mix of letter case. */
  predicate IsIfcFile(ext: string) {
    var e := ToLower(ext);
    e == "ifc" || e == "ifczip"
  }

  /** The IFC test ignores letter case and accepts nothing but the two
      extensions. */
  lemma IfcIgnoresCase(a: string, b: string)
    requires ToLower(a) == ToLower(b)
    ensures IsIfcFile(a) == IsIfcFile(b)
  {
  }

  lemma IfcExamples()
    ensures IsIfcFile("IFC") && IsIfcFile("IfcZip") && IsIfcFile("ifc")
    ensures !IsIfcFile("ifcx") && !IsIfcFile("zip") && !IsIfcFile("")
  {
    assert ToLower("IFC") == "ifc";
    assert ToLower("IfcZip") == "ifczip";
    assert ToLower("ifc") == "ifc";
    assert |ToLower("ifcx")| == 4;
    assert |ToLower("zip")| == 3 && ToLower("zip")[0] == 'z';
  }

  // ---------------------------------------------------------------------
  // handleCreate

  /** A Go map lookup: "" for a missing key. */
  function Lookup(m: map<string, string>, k: string): string {
    if k in m then m[k] else ""
  }

  /** The `upload_state` row written for a new upload. */
  datatype UploadState = UploadState(
    id: string,
    filename: string,
    ext: string,
    folderId: string,
    totalSize: string,
    uploadedSize: int,
    status: string,
    createdAt: int)

  /** The answer to a creation request and the row it left, if any. */
  datatype Created = Created(status: int, headers: map<string, string>, persisted: Option<UploadState>)

  const StatusCreated: int := 201

  /** `handleCreate`, for a fresh id and the clock reading; `persistOk`
      says whether the database accepted the row. */
  function HandleCreate(uploadLength: string, metadataHeader: string, uploadId: string, now: int, persistOk: bool)
    : (r: Created)
    ensures r.status == StatusCreated
    ensures r.headers == map["Location" := "/api/uploads/" + uploadId, "Upload-Offset" := "0"]
    ensures r.persisted.Some? <==> persistOk
    ensures persistOk ==>
      var meta := Metadata(metadataHeader);
      r.persisted.value.filename == Lookup(meta, "filename") &&
      r.persisted.value.folderId == Lookup(meta, "folderId") &&
      r.persisted.value.ext == FileExt(Lookup(meta, "filename")) &&
      r.persisted.value.uploadedSize == 0 && r.persisted.value.status == "uploading"
  {
    var meta := Metadata(metadataHeader);
    var filename := Lookup(meta, "filename");
    var state := UploadState(uploadId, filename, FileExt(filename), Lookup(meta, "folderId"),
                             uploadLength, 0, "uploading", now);
    Created(StatusCreated, map["Location" := "/api/uploads/" + uploadId, "Upload-Offset" := "0"],
            if persistOk then Some(state) else None)
  }

  /** A failure to persist the upload state does not change the answer. */
  lemma CreateIgnoresPersistFailure(uploadLength: string, header: string, id: string, now: int)
    ensures HandleCreate(uploadLength, header, id, now, false).status ==
            HandleCreate(uploadLength, header, id, now, true).status
    ensures HandleCreate(uploadLength, header, id, now, false).headers ==
            HandleCreate(uploadLength, header, id, now, true).headers
  {
  }
}
