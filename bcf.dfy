/** BCF 2.1 archives (collab/bcf_export.go): writing topics into a
    buildingSMART BCF-XML archive and reading them back.

    An archive is a sequence of named entries.  An XML file is kept as the
    record it encodes rather than as text: an entry whose record is of the
    expected kind is one that decodes, any other entry fails to decode.  A
    snapshot is a blob of bytes. */
module Bcf {
  import opened Wrappers
  import opened GoText
  import Base64
  import opened CollabTypes

  const VersionNamespace: string := "http://www.buildingsmart-tech.org/bcf/version/2.1"
  const MarkupNamespace: string := "http://www.buildingsmart-tech.org/bcf/markup/2.1"
  const VisInfoNamespace: string := "http://www.buildingsmart-tech.org/bcf/viewpoint/2.1"
  const DataUrlPrefix: string := "data:image/png;base64,"
  const Perspective: string := "perspective"
  const OrthogonalType: string := "orthogonal"
  const MarkupFileName: string := "markup.bcf"

  /** 60.0, the field of view of a perspective camera that has none. */
  const DefaultFieldOfView: Float64 := 0x404E_0000_0000_0000
  /** 1.0, the view-to-world scale of an orthogonal camera that has none. */
  const DefaultWorldScale: Float64 := 0x3FF0_0000_0000_0000

  // ---------------------------------------------------------------------
  // The XML records

  datatype TopicXml = TopicXml(
    guid: string,
    topicType: string,
    topicStatus: string,
    title: string,
    description: string,
    priority: string,
    creationDate: int,
    labels: seq<string>)

  datatype CommentXml = CommentXml(guid: string, date: int, author: string, comment: string)

  datatype ViewpointRef = ViewpointRef(guid: string, viewpoint: string, snapshot: string)

  datatype Markup = Markup(xmlns: string, topic: TopicXml, comments: seq<CommentXml>, viewpoints: seq<ViewpointRef>)

  datatype PerspectiveCamera = PerspectiveCamera(viewPoint: Vector3, direction: Vector3, upVector: Vector3, fieldOfView: Float64)

  datatype OrthogonalCamera = OrthogonalCamera(viewPoint: Vector3, direction: Vector3, upVector: Vector3, viewToWorldScale: Float64)

  datatype VisInfo = VisInfo(xmlns: string, guid: string, perspective: Option<PerspectiveCamera>, orthogonal: Option<OrthogonalCamera>)

  /** What an archive entry holds; `Unreadable` is an entry that cannot be opened. */
  datatype Content =
    | VersionFile(versionId: string, xmlns: string)
    | MarkupFile(markup: Markup)
    | VisInfoFile(visInfo: VisInfo)
    | Blob(data: seq<byte>)
    | Unreadable

  datatype Entry = Entry(name: string, content: Content)

  /** The bytes handed to the reader: a ZIP archive, or something that is not one. */
  datatype Archive = Corrupt | Zip(entries: seq<Entry>)

  const VersionEntry: Entry := Entry("bcf.version", VersionFile("2.1", VersionNamespace))

  // ---------------------------------------------------------------------
  // Helpers

  /** derefStr: the pointed-to string, or "" for nil. */
  function DerefStr(s: Option<string>): (r: string)
    ensures s.Some? ==> r == s.value
    ensures s.None? ==> r == ""
  {
    if s.None? then "" else s.value
  }

  /** A string field read back from XML: set only when non-empty. */
  function NonEmpty(s: string): (r: Option<string>)
    ensures r.None? <==> s == ""
    ensures r.Some? ==> r.value == s
  {
    if s == "" then None else Some(s)
  }

  /** Writing a field out and reading it back loses only the difference
      between nil and a pointer to "". */
  lemma DerefThenNonEmpty(s: Option<string>)
    ensures s != Some("") ==> NonEmpty(DerefStr(s)) == s
    ensures s == Some("") ==> NonEmpty(DerefStr(s)) == None
  {
  }

  /** encodeBase64: standard alphabet with padding. */
  function EncodeBase64(data: seq<byte>): (r: string)
    ensures |r| == 4 * ((|data| + 2) / 3)
  {
    Base64.Encode(Base64.Standard, data)
  }

  /** A PNG snapshot as a data URL. */
  function DataUrl(data: seq<byte>): string {
    DataUrlPrefix + EncodeBase64(data)
  }

  /** decodeBase64DataURL: the standard-alphabet decoding of the text after
      the first comma; nothing when there is no comma or it does not decode. */
  function DecodeDataUrl(url: string): seq<byte> {
    var idx := IndexOf(url, ',');
    if idx < 0 then []
    else
      match Base64.Decode(Base64.Standard, url[idx + 1..])
      case Some(data) => data
      case None => []
  }

  /** What decodeBase64DataURL does with the text after the first comma. */
  lemma DataUrlDecoding(url: string, k: nat)
    requires k < |url| && url[k] == ',' && ',' !in url[..k]
    ensures Base64.Decode(Base64.Standard, url[k + 1..]).Some? ==>
              DecodeDataUrl(url) == Base64.Decode(Base64.Standard, url[k + 1..]).value
    ensures Base64.Decode(Base64.Standard, url[k + 1..]).None? ==> DecodeDataUrl(url) == []
  {
    IndexOfAt(url, ',', k);
  }

  /** Without a comma there is nothing to decode. */
  lemma DataUrlWithoutComma(url: string)
    requires ',' !in url
    ensures DecodeDataUrl(url) == []
  {
  }

  /** Decoding the data URL of some bytes gives those bytes back. */
  lemma DataUrlRoundTrip(data: seq<byte>)
    ensures DecodeDataUrl(DataUrl(data)) == data
  {
    var url := DataUrl(data);
    var e := EncodeBase64(data);
    assert url[..21] == "data:image/png;base64";
    assert url[21] == ',';
    IndexOfAt(url, ',', 21);
    assert url[22..] == e;
    Base64.RoundTrip(Base64.Standard, data);
  }

  // ---------------------------------------------------------------------
  // Export: the specification

  /** The entry names of the i-th viewpoint of a topic: its .bcfv file and its snapshot. */
  function ViewpointFileNames(i: nat, vp: Viewpoint): (string, string) {
    if i == 0 then ("viewpoint.bcfv", "snapshot.png") else (vp.guid + ".bcfv", vp.guid + ".png")
  }

  function ExportRef(i: nat, vp: Viewpoint): ViewpointRef {
    var names := ViewpointFileNames(i, vp);
    ViewpointRef(vp.guid, names.0, names.1)
  }

  function ExportVisInfo(vp: Viewpoint): VisInfo {
    if vp.cameraType == Perspective then
      VisInfo(VisInfoNamespace, vp.guid,
              Some(PerspectiveCamera(vp.cameraPosition, vp.cameraDirection, vp.cameraUp,
                                     vp.fieldOfView.GetOr(DefaultFieldOfView))),
              None)
    else
      VisInfo(VisInfoNamespace, vp.guid, None,
              Some(OrthogonalCamera(vp.cameraPosition, vp.cameraDirection, vp.cameraUp,
                                    vp.viewWorldScale.GetOr(DefaultWorldScale))))
  }

  /** The snapshot bytes written for a viewpoint; empty means none is written. */
  function SnapshotBytes(vp: Viewpoint): seq<byte> {
    if vp.snapshotBase64.Some? then DecodeDataUrl(vp.snapshotBase64.value) else []
  }

  /** The entries for the i-th viewpoint of the topic whose folder is `prefix`. */
  function ViewpointEntries(prefix: string, i: nat, vp: Viewpoint): seq<Entry> {
    var names := ViewpointFileNames(i, vp);
    var snap := SnapshotBytes(vp);
    [Entry(prefix + names.0, VisInfoFile(ExportVisInfo(vp)))] +
    (if |snap| > 0 then [Entry(prefix + names.1, Blob(snap))] else [])
  }

  /** The entries for a topic's viewpoints, in order. */
  function AllViewpointEntries(prefix: string, vps: seq<Viewpoint>): seq<Entry>
    decreases |vps|
  {
    if |vps| == 0 then []
    else AllViewpointEntries(prefix, vps[..|vps| - 1]) + ViewpointEntries(prefix, |vps| - 1, vps[|vps| - 1])
  }

  function ExportRefs(vps: seq<Viewpoint>): (r: seq<ViewpointRef>)
    ensures |r| == |vps|
    decreases |vps|
  {
    if |vps| == 0 then [] else ExportRefs(vps[..|vps| - 1]) + [ExportRef(|vps| - 1, vps[|vps| - 1])]
  }

  /** One more viewpoint adds its reference and its entries at the end. */
  lemma ViewpointStep(prefix: string, vps: seq<Viewpoint>, j: nat)
    requires j < |vps|
    ensures ExportRefs(vps[..j + 1]) == ExportRefs(vps[..j]) + [ExportRef(j, vps[j])]
    ensures AllViewpointEntries(prefix, vps[..j + 1]) ==
            AllViewpointEntries(prefix, vps[..j]) + ViewpointEntries(prefix, j, vps[j])
  {
    assert vps[..j + 1][..j] == vps[..j];
  }

  function ExportComment(c: Comment): CommentXml {
    CommentXml(c.id, c.createdAt, DerefStr(c.authorName), c.body)
  }

  function ExportComments(cs: seq<Comment>): (r: seq<CommentXml>)
    ensures |r| == |cs|
    decreases |cs|
  {
    if |cs| == 0 then [] else ExportComments(cs[..|cs| - 1]) + [ExportComment(cs[|cs| - 1])]
  }

  function ExportTopicXml(t: Topic): TopicXml {
    TopicXml(t.guid, DerefStr(t.topicType), t.topicStatus, t.title, DerefStr(t.description),
             DerefStr(t.priority), t.createdAt, t.labels.GetOr([]))
  }

  function ExportMarkup(t: Topic): Markup {
    Markup(MarkupNamespace, ExportTopicXml(t), ExportComments(t.comments), ExportRefs(t.viewpoints))
  }

  /** All the entries of one topic: its viewpoint files, then its markup. */
  function TopicEntries(t: Topic): seq<Entry> {
    AllViewpointEntries(t.guid + "/", t.viewpoints) + [Entry(t.guid + "/" + MarkupFileName, MarkupFile(ExportMarkup(t)))]
  }

  /** The archive ExportBCFZip writes. */
  function Exported(topics: seq<Topic>): seq<Entry>
    decreases |topics|
  {
    if |topics| == 0 then [VersionEntry]
    else Exported(topics[..|topics| - 1]) + TopicEntries(topics[|topics| - 1])
  }

  // ---------------------------------------------------------------------
  // Export: the writer

  /** ExportBCFZip: the version file, then for each topic its viewpoint
      files (and snapshots) followed by its markup. */
  method ExportBcfZip(topics: seq<Topic>) returns (archive: seq<Entry>)
    ensures archive == Exported(topics)
  {
    archive := [Entry("bcf.version", VersionFile("2.1", VersionNamespace))];
    for i := 0 to |topics|
      invariant archive == Exported(topics[..i])
    {
      var written := WriteTopic(topics[i]);
      archive := archive + written;
      assert topics[..i + 1][..i] == topics[..i];
    }
    assert topics[..|topics|] == topics;
  }

  /** One pass of the topic loop of ExportBCFZip: the comments and
      viewpoint references of the markup, the viewpoint files, then the
      markup itself. */
  method WriteTopic(topic: Topic) returns (written: seq<Entry>)
    ensures written == TopicEntries(topic)
  {
    var prefix := topic.guid + "/";
    var comments := WriteComments(topic.comments);
    var refs;
    refs, written := WriteViewpoints(prefix, topic.viewpoints);
    var markup := Markup(MarkupNamespace, ExportTopicXml(topic), comments, refs);
    written := written + [Entry(prefix + MarkupFileName, MarkupFile(markup))];
  }

  /** ExportBCFZip's loop turning a topic's comments into markup comments. */
  method WriteComments(cs: seq<Comment>) returns (comments: seq<CommentXml>)
    ensures comments == ExportComments(cs)
  {
    comments := [];
    for j := 0 to |cs|
      invariant comments == ExportComments(cs[..j])
    {
      var c := cs[j];
      comments := comments + [CommentXml(c.id, c.createdAt, DerefStr(c.authorName), c.body)];
      assert cs[..j + 1][..j] == cs[..j];
    }
    assert cs[..|cs|] == cs;
  }

  /** ExportBCFZip's loop over a topic's viewpoints: the references for the
      markup and the files written, in order. */
  method WriteViewpoints(prefix: string, vps: seq<Viewpoint>) returns (refs: seq<ViewpointRef>, written: seq<Entry>)
    ensures refs == ExportRefs(vps)
    ensures written == AllViewpointEntries(prefix, vps)
  {
    refs := [];
    written := [];
    for j := 0 to |vps|
      invariant refs == ExportRefs(vps[..j])
      invariant written == AllViewpointEntries(prefix, vps[..j])
    {
      var ref, files := WriteViewpoint(prefix, j, vps[j]);
      ViewpointStep(prefix, vps, j);
      refs := refs + [ref];
      written := written + files;
    }
    assert vps[..|vps|] == vps;
  }

  /** One pass of the viewpoint loop of ExportBCFZip: the reference the
      markup gets, the visualisation file and, when the snapshot decodes
      to some bytes, the snapshot file. */
  method WriteViewpoint(prefix: string, j: nat, vp: Viewpoint) returns (ref: ViewpointRef, files: seq<Entry>)
    ensures ref == ExportRef(j, vp)
    ensures files == ViewpointEntries(prefix, j, vp)
  {
    var vpFileName, snapFileName;
    if j == 0 {
      vpFileName, snapFileName := "viewpoint.bcfv", "snapshot.png";
    } else {
      vpFileName, snapFileName := vp.guid + ".bcfv", vp.guid + ".png";
    }
    ref := ViewpointRef(vp.guid, vpFileName, snapFileName);
    var visInfo := VisInfo(VisInfoNamespace, vp.guid, None, None);
    if vp.cameraType == Perspective {
      var fov := DefaultFieldOfView;
      if vp.fieldOfView.Some? {
        fov := vp.fieldOfView.value;
      }
      visInfo := visInfo.(perspective := Some(PerspectiveCamera(vp.cameraPosition, vp.cameraDirection, vp.cameraUp, fov)));
    } else {
      var scale := DefaultWorldScale;
      if vp.viewWorldScale.Some? {
        scale := vp.viewWorldScale.value;
      }
      visInfo := visInfo.(orthogonal := Some(OrthogonalCamera(vp.cameraPosition, vp.cameraDirection, vp.cameraUp, scale)));
    }
    files := [Entry(prefix + vpFileName, VisInfoFile(visInfo))];
    if vp.snapshotBase64.Some? {
      var snapData := DecodeDataUrl(vp.snapshotBase64.value);
      if |snapData| > 0 {
        files := files + [Entry(prefix + snapFileName, Blob(snapData))];
      }
    }
  }

  // ---------------------------------------------------------------------
  // Export: properties

  /** The archive opens with the version file declaring BCF 2.1, followed
      by at least one entry (the markup) per topic. */
  lemma {:induction false} ExportedStartsWithVersion(topics: seq<Topic>)
    ensures |Exported(topics)| >= 1 + |topics|
    ensures Exported(topics)[0] == Entry("bcf.version", VersionFile("2.1", VersionNamespace))
    decreases |topics|
  {
    if |topics| > 0 {
      ExportedStartsWithVersion(topics[..|topics| - 1]);
    }
  }

  /** Each topic's entries are written as one block, in the order of the topics. */
  lemma {:induction false} ExportedBlocks(topics: seq<Topic>, i: nat)
    requires i < |topics|
    ensures Exported(topics[..i]) + TopicEntries(topics[i]) <= Exported(topics)
    decreases |topics|
  {
    if i == |topics| - 1 {
      assert Exported(topics[..i]) + TopicEntries(topics[i]) == Exported(topics);
    } else {
      var init := topics[..|topics| - 1];
      assert init[..i] == topics[..i];
      ExportedBlocks(init, i);
      assert Exported(topics) == Exported(init) + TopicEntries(topics[|topics| - 1]);
    }
  }

  /** A viewpoint's files are named inside the topic folder and are never markup. */
  lemma {:induction false} ViewpointEntriesInFolder(prefix: string, vps: seq<Viewpoint>)
    ensures forall e :: e in AllViewpointEntries(prefix, vps) ==> HasPrefix(e.name, prefix) && !e.content.MarkupFile?
    decreases |vps|
  {
    if |vps| > 0 {
      ViewpointEntriesInFolder(prefix, vps[..|vps| - 1]);
      var last := ViewpointEntries(prefix, |vps| - 1, vps[|vps| - 1]);
      forall e | e in last ensures HasPrefix(e.name, prefix) && !e.content.MarkupFile? {
        assert (e.name)[..|prefix|] == prefix;
      }
    }
  }

  /** Every entry of a topic lies in the folder named by its GUID, and the
      markup is its last entry: it is written after all its viewpoint files. */
  lemma TopicEntriesLayout(t: Topic)
    ensures forall e :: e in TopicEntries(t) ==> HasPrefix(e.name, t.guid + "/")
    ensures var es := TopicEntries(t);
      es[|es| - 1] == Entry(t.guid + "/" + MarkupFileName, MarkupFile(ExportMarkup(t))) &&
      forall k :: 0 <= k < |es| - 1 ==> !es[k].content.MarkupFile?
  {
    var prefix := t.guid + "/";
    var vs := AllViewpointEntries(prefix, t.viewpoints);
    ViewpointEntriesInFolder(prefix, t.viewpoints);
    var m := Entry(prefix + MarkupFileName, MarkupFile(ExportMarkup(t)));
    assert (prefix + MarkupFileName)[..|prefix|] == prefix;
    assert TopicEntries(t) == vs + [m];
    forall k | 0 <= k < |vs| ensures !(vs + [m])[k].content.MarkupFile? {
      assert (vs + [m])[k] == vs[k] && vs[k] in vs;
    }
  }

  /** The markup names, for each viewpoint, exactly the entry that holds its
      visualisation file, and the snapshot entry whenever one is written. */
  lemma RefsNameEntries(prefix: string, vps: seq<Viewpoint>, j: nat)
    requires j < |vps|
    ensures Entry(prefix + ExportRefs(vps)[j].viewpoint, VisInfoFile(ExportVisInfo(vps[j]))) in AllViewpointEntries(prefix, vps)
    ensures |SnapshotBytes(vps[j])| > 0 ==>
      Entry(prefix + ExportRefs(vps)[j].snapshot, Blob(SnapshotBytes(vps[j]))) in AllViewpointEntries(prefix, vps)
    ensures ExportRefs(vps)[j].guid == vps[j].guid
  {
    RefAt(vps, j);
    var es := ViewpointEntries(prefix, j, vps[j]);
    var before := AllViewpointEntries(prefix, vps[..j]);
    ViewpointEntriesWithin(prefix, vps, j);
    assert (before + es)[|before|] == es[0];
    if |SnapshotBytes(vps[j])| > 0 {
      assert (before + es)[|before| + 1] == es[1];
    }
  }

  lemma {:induction false} ViewpointEntriesWithin(prefix: string, vps: seq<Viewpoint>, j: nat)
    requires j < |vps|
    ensures AllViewpointEntries(prefix, vps[..j]) + ViewpointEntries(prefix, j, vps[j]) <= AllViewpointEntries(prefix, vps)
    decreases |vps|
  {
    var n := |vps| - 1;
    if j == n {
      assert vps[..n + 1] == vps;
    } else {
      ViewpointEntriesWithin(prefix, vps[..n], j);
      assert vps[..n][..j] == vps[..j] && vps[..n][j] == vps[j];
    }
  }

  /** The first viewpoint is written as viewpoint.bcfv and snapshot.png,
      every later one under its own GUID. */
  lemma ViewpointNaming(vps: seq<Viewpoint>, j: nat)
    requires j < |vps|
    ensures j == 0 ==> ExportRefs(vps)[j].viewpoint == "viewpoint.bcfv" && ExportRefs(vps)[j].snapshot == "snapshot.png"
    ensures j > 0 ==> ExportRefs(vps)[j].viewpoint == vps[j].guid + ".bcfv" && ExportRefs(vps)[j].snapshot == vps[j].guid + ".png"
  {
    RefAt(vps, j);
  }

  lemma {:induction false} RefAt(vps: seq<Viewpoint>, j: nat)
    requires j < |vps|
    ensures ExportRefs(vps)[j] == ExportRef(j, vps[j])
    decreases |vps|
  {
    if j < |vps| - 1 {
      RefAt(vps[..|vps| - 1], j);
    }
  }

  /** A snapshot entry is written exactly when the viewpoint has a snapshot
      that decodes to some bytes. */
  lemma SnapshotWritten(prefix: string, i: nat, vp: Viewpoint)
    ensures |ViewpointEntries(prefix, i, vp)| == 2 <==>
            vp.snapshotBase64.Some? && |DecodeDataUrl(vp.snapshotBase64.value)| > 0
    ensures |ViewpointEntries(prefix, i, vp)| == 2 ==>
            ViewpointEntries(prefix, i, vp)[1].content == Blob(DecodeDataUrl(vp.snapshotBase64.value))
  {
  }

  // ---------------------------------------------------------------------
  // Import: the specification

  /** The archive's files by name; a later entry replaces an earlier one of the same name. */
  function Index(entries: seq<Entry>): map<string, Content>
    decreases |entries|
  {
    if |entries| == 0 then map[]
    else Index(entries[..|entries| - 1])[entries[|entries| - 1].name := entries[|entries| - 1].content]
  }

  /** `order` lists every file name of the index once: the order in which
      a Go map is ranged over, which the runtime chooses. */
  ghost predicate IsListing(order: seq<string>, index: map<string, Content>) {
    (forall p :: p in order <==> p in index) &&
    (forall i, j :: 0 <= i < j < |order| ==> order[i] != order[j])
  }

  /** A camera read back: perspective first, then orthogonal, else none. */
  function ImportVisInfo(v: VisInfo): Viewpoint {
    var vp := EmptyViewpoint.(guid := v.guid);
    if v.perspective.Some? then
      var cam := v.perspective.value;
      vp.(cameraType := Perspective, cameraPosition := cam.viewPoint, cameraDirection := cam.direction,
          cameraUp := cam.upVector, fieldOfView := Some(cam.fieldOfView))
    else if v.orthogonal.Some? then
      var cam := v.orthogonal.value;
      vp.(cameraType := OrthogonalType, cameraPosition := cam.viewPoint, cameraDirection := cam.direction,
          cameraUp := cam.upVector, viewWorldScale := Some(cam.viewToWorldScale))
    else vp
  }

  /** The snapshot of a viewpoint reference, as a data URL, when its entry can be read. */
  function ImportSnapshot(index: map<string, Content>, dir: string, ref: ViewpointRef): Option<string> {
    if ref.snapshot == "" then None
    else
      var path := dir + ref.snapshot;
      if path in index && index[path].Blob? then Some(DataUrl(index[path].data)) else None
  }

  /** A viewpoint reference resolved against the archive; none when its
      file is missing, unreadable or not a visualisation file. */
  function ImportViewpoint(index: map<string, Content>, dir: string, ref: ViewpointRef): Option<Viewpoint> {
    var path := dir + ref.viewpoint;
    if path in index && index[path].VisInfoFile? then
      Some(ImportVisInfo(index[path].visInfo).(snapshotBase64 := ImportSnapshot(index, dir, ref)))
    else None
  }

  function ImportViewpoints(index: map<string, Content>, dir: string, refs: seq<ViewpointRef>): (r: seq<Viewpoint>)
    ensures |r| <= |refs|
    decreases |refs|
  {
    if |refs| == 0 then []
    else
      var init := ImportViewpoints(index, dir, refs[..|refs| - 1]);
      match ImportViewpoint(index, dir, refs[|refs| - 1])
      case Some(vp) => init + [vp]
      case None => init
  }

  function ImportComment(c: CommentXml): Comment {
    EmptyComment.(body := c.comment, authorName := NonEmpty(c.author))
  }

  function ImportComments(cs: seq<CommentXml>): (r: seq<Comment>)
    ensures |r| == |cs|
    decreases |cs|
  {
    if |cs| == 0 then [] else ImportComments(cs[..|cs| - 1]) + [ImportComment(cs[|cs| - 1])]
  }

  /** The topic read from a markup file in folder `dir`. */
  function ImportMarkup(index: map<string, Content>, dir: string, m: Markup): Topic {
    EmptyTopic.(
      guid := m.topic.guid,
      title := m.topic.title,
      topicStatus := m.topic.topicStatus,
      description := NonEmpty(m.topic.description),
      priority := NonEmpty(m.topic.priority),
      topicType := NonEmpty(m.topic.topicType),
      viewpoints := ImportViewpoints(index, dir, m.viewpoints),
      comments := ImportComments(m.comments))
  }

  /** The topic an archive file yields: only a markup file in a folder does. */
  function ImportEntry(index: map<string, Content>, path: string): Option<Topic> {
    if HasSuffix(path, "/" + MarkupFileName) && path in index && index[path].MarkupFile? then
      Some(ImportMarkup(index, TrimSuffix(path, MarkupFileName), index[path].markup))
    else None
  }

  function ImportTopics(index: map<string, Content>, order: seq<string>): (r: seq<Topic>)
    ensures |r| <= |order|
    decreases |order|
  {
    if |order| == 0 then []
    else
      var init := ImportTopics(index, order[..|order| - 1]);
      match ImportEntry(index, order[|order| - 1])
      case Some(t) => init + [t]
      case None => init
  }

  /** What ParseBCFZip returns for an archive ranged over in `order`. */
  function Parsed(archive: Archive, order: seq<string>): Result<seq<Topic>, string> {
    match archive
    case Corrupt => Err("open zip")
    case Zip(entries) => Ok(ImportTopics(Index(entries), order))
  }

  // ---------------------------------------------------------------------
  // Import: the reader

  /** ParseBCFZip: index the files by name, then read a topic from every
      markup file, with its viewpoints and comments. */
  method ParseBcfZip(archive: Archive, order: seq<string>) returns (result: Result<seq<Topic>, string>)
    requires archive.Zip? ==> IsListing(order, Index(archive.entries))
    ensures result == Parsed(archive, order)
  {
    if archive.Corrupt? {
      return Err("open zip");
    }
    var files := IndexFiles(archive.entries);
    var topics: seq<Topic> := [];
    for i := 0 to |order|
      invariant topics == ImportTopics(files, order[..i])
    {
      assert order[..i + 1][..i] == order[..i];
      var path := order[i];
      if !HasSuffix(path, "/" + MarkupFileName) || path !in files || !files[path].MarkupFile? {
        continue;
      }
      var topic := ReadMarkup(files, TrimSuffix(path, MarkupFileName), files[path].markup);
      topics := topics + [topic];
    }
    assert order[..|order|] == order;
    return Ok(topics);
  }

  /** The loop of ParseBCFZip that indexes the archive's files by name. */
  method IndexFiles(entries: seq<Entry>) returns (files: map<string, Content>)
    ensures files == Index(entries)
  {
    files := map[];
    for i := 0 to |entries|
      invariant files == Index(entries[..i])
    {
      files := files[entries[i].name := entries[i].content];
      assert entries[..i + 1][..i] == entries[..i];
    }
    assert entries[..|entries|] == entries;
  }

  /** The body of ParseBCFZip's loop for one markup file: the topic fields,
      then its viewpoints and comments. */
  method ReadMarkup(files: map<string, Content>, topicDir: string, markup: Markup) returns (topic: Topic)
    ensures topic == ImportMarkup(files, topicDir, markup)
  {
    topic := EmptyTopic.(guid := markup.topic.guid, title := markup.topic.title,
                         topicStatus := markup.topic.topicStatus);
    if markup.topic.description != "" {
      topic := topic.(description := Some(markup.topic.description));
    }
    if markup.topic.priority != "" {
      topic := topic.(priority := Some(markup.topic.priority));
    }
    if markup.topic.topicType != "" {
      topic := topic.(topicType := Some(markup.topic.topicType));
    }
    var viewpoints := ReadViewpoints(files, topicDir, markup.viewpoints);
    var comments := ReadComments(markup.comments);
    topic := topic.(viewpoints := viewpoints, comments := comments);
  }

  /** ParseBCFZip's loop over a markup's viewpoint references. */
  method ReadViewpoints(files: map<string, Content>, topicDir: string, refs: seq<ViewpointRef>)
    returns (viewpoints: seq<Viewpoint>)
    ensures viewpoints == ImportViewpoints(files, topicDir, refs)
  {
    viewpoints := [];
    for j := 0 to |refs|
      invariant viewpoints == ImportViewpoints(files, topicDir, refs[..j])
    {
      assert refs[..j + 1][..j] == refs[..j];
      var vpRef := refs[j];
      var vpPath := topicDir + vpRef.viewpoint;
      if vpPath !in files || !files[vpPath].VisInfoFile? {
        continue;
      }
      var vp := ImportVisInfo(files[vpPath].visInfo);
      if vpRef.snapshot != "" {
        var snapPath := topicDir + vpRef.snapshot;
        if snapPath in files && files[snapPath].Blob? {
          var encoded := DataUrlPrefix + Base64.Encode(Base64.Standard, files[snapPath].data);
          vp := vp.(snapshotBase64 := Some(encoded));
        }
      }
      viewpoints := viewpoints + [vp];
    }
    assert refs[..|refs|] == refs;
  }

  /** ParseBCFZip's loop over a markup's comments. */
  method ReadComments(cs: seq<CommentXml>) returns (comments: seq<Comment>)
    ensures comments == ImportComments(cs)
  {
    comments := [];
    for j := 0 to |cs|
      invariant comments == ImportComments(cs[..j])
    {
      assert cs[..j + 1][..j] == cs[..j];
      var c := cs[j];
      var comment := EmptyComment.(body := c.comment);
      if c.author != "" {
        comment := comment.(authorName := Some(c.author));
      }
      comments := comments + [comment];
    }
    assert cs[..|cs|] == cs;
  }


  // ---------------------------------------------------------------------
  // Import: properties

  /** One more listed file adds its topic, if it yields one, at the end. */
  lemma ImportTopicsStep(index: map<string, Content>, order: seq<string>)
    requires |order| > 0
    ensures var last := ImportEntry(index, order[|order| - 1]);
      ImportTopics(index, order) ==
      ImportTopics(index, order[..|order| - 1]) + (if last.Some? then [last.value] else [])
  {
  }

  /** Every topic read comes from a markup file of the archive. */
  lemma {:induction false} ImportTopicsFromMarkup(index: map<string, Content>, order: seq<string>)
    ensures forall t :: t in ImportTopics(index, order) ==> exists k :: 0 <= k < |order| && ImportEntry(index, order[k]) == Some(t)
    decreases |order|
  {
    if |order| > 0 {
      var init := order[..|order| - 1];
      ImportTopicsFromMarkup(index, init);
      ImportTopicsStep(index, order);
      forall t | t in ImportTopics(index, order)
        ensures exists k :: 0 <= k < |order| && ImportEntry(index, order[k]) == Some(t)
      {
        if t in ImportTopics(index, init) {
          var k :| 0 <= k < |init| && ImportEntry(index, init[k]) == Some(t);
          assert order[k] == init[k];
        } else {
          assert ImportEntry(index, order[|order| - 1]) == Some(t);
        }
      }
    }
  }

  /** Every markup file in a folder yields a topic. */
  lemma MarkupYieldsTopic(index: map<string, Content>, order: seq<string>)
    ensures forall k :: 0 <= k < |order| && ImportEntry(index, order[k]).Some? ==>
              ImportEntry(index, order[k]).value in ImportTopics(index, order)
  {
    forall k | 0 <= k < |order| && ImportEntry(index, order[k]).Some?
      ensures ImportEntry(index, order[k]).value in ImportTopics(index, order)
    {
      MarkupYieldsTopicAt(index, order, k);
    }
  }

  lemma {:induction false} MarkupYieldsTopicAt(index: map<string, Content>, order: seq<string>, k: nat)
    requires k < |order| && ImportEntry(index, order[k]).Some?
    ensures ImportEntry(index, order[k]).value in ImportTopics(index, order)
    decreases |order|
  {
    var init := order[..|order| - 1];
    ImportTopicsStep(index, order);
    if k < |init| {
      assert order[k] == init[k];
      MarkupYieldsTopicAt(index, init, k);
    }
  }

  /** An entry that is not a markup file in a folder yields no topic. */
  lemma OnlyMarkupYieldsTopic(index: map<string, Content>, path: string)
    ensures ImportEntry(index, path).Some? <==>
            HasSuffix(path, "/markup.bcf") && path in index && index[path].MarkupFile?
  {
  }

  /** When every reference resolves to a visualisation file, no viewpoint is skipped. */
  lemma {:induction false} ImportViewpointsAllResolve(index: map<string, Content>, dir: string, refs: seq<ViewpointRef>)
    requires forall j :: 0 <= j < |refs| ==> dir + refs[j].viewpoint in index && index[dir + refs[j].viewpoint].VisInfoFile?
    ensures |ImportViewpoints(index, dir, refs)| == |refs|
    decreases |refs|
  {
    if |refs| > 0 {
      ImportViewpointsAllResolve(index, dir, refs[..|refs| - 1]);
    }
  }

  /** A reference whose visualisation file is missing contributes nothing. */
  lemma MissingViewpointSkipped(index: map<string, Content>, dir: string, refs: seq<ViewpointRef>, ref: ViewpointRef)
    requires dir + ref.viewpoint !in index
    ensures ImportViewpoints(index, dir, refs + [ref]) == ImportViewpoints(index, dir, refs)
  {
    assert (refs + [ref])[..|refs|] == refs;
  }

  /** With both cameras present the perspective one is taken. */
  lemma PerspectiveTakesPrecedence(v: VisInfo)
    requires v.perspective.Some? && v.orthogonal.Some?
    ensures ImportVisInfo(v).cameraType == "perspective"
    ensures ImportVisInfo(v).fieldOfView == Some(v.perspective.value.fieldOfView)
    ensures ImportVisInfo(v).viewWorldScale.None?
  {
  }

  // ---------------------------------------------------------------------
  // Round trips

  /** Exporting a viewpoint and reading its file back keeps its GUID and
      camera vectors; every type other than "perspective" comes back as
      "orthogonal", and the absent lens value comes back as its default. */
  lemma CameraRoundTrip(vp: Viewpoint)
    ensures var r := ImportVisInfo(ExportVisInfo(vp));
      r.guid == vp.guid &&
      r.cameraPosition == vp.cameraPosition && r.cameraDirection == vp.cameraDirection && r.cameraUp == vp.cameraUp &&
      (vp.cameraType == "perspective" ==>
         r.cameraType == "perspective" && r.fieldOfView == Some(vp.fieldOfView.GetOr(DefaultFieldOfView)) && r.viewWorldScale.None?) &&
      (vp.cameraType != "perspective" ==>
         r.cameraType == "orthogonal" && r.viewWorldScale == Some(vp.viewWorldScale.GetOr(DefaultWorldScale)) && r.fieldOfView.None?)
  {
  }

  /** A comment written out and read back keeps its body; its author comes
      back only when non-empty. */
  lemma CommentRoundTrip(c: Comment)
    ensures ImportComment(ExportComment(c)).body == c.body
    ensures ImportComment(ExportComment(c)).authorName == NonEmpty(DerefStr(c.authorName))
  {
  }

  lemma {:induction false} ExportCommentsAt(cs: seq<Comment>, k: nat)
    requires k < |cs|
    ensures ExportComments(cs)[k] == ExportComment(cs[k])
    decreases |cs|
  {
    if k < |cs| - 1 {
      ExportCommentsAt(cs[..|cs| - 1], k);
    }
  }

  lemma {:induction false} ImportCommentsAt(cs: seq<CommentXml>, k: nat)
    requires k < |cs|
    ensures ImportComments(cs)[k] == ImportComment(cs[k])
    decreases |cs|
  {
    if k < |cs| - 1 {
      ImportCommentsAt(cs[..|cs| - 1], k);
    }
  }

  /** Every comment written to a markup file reads back in its place, with
      its body, and its author unless that was empty. */
  lemma CommentsRoundTrip(cs: seq<Comment>)
    ensures |ImportComments(ExportComments(cs))| == |cs|
    ensures forall k :: 0 <= k < |cs| ==>
      ImportComments(ExportComments(cs))[k].body == cs[k].body &&
      ImportComments(ExportComments(cs))[k].authorName == NonEmpty(DerefStr(cs[k].authorName))
  {
    forall k | 0 <= k < |cs|
      ensures ImportComments(ExportComments(cs))[k] == ImportComment(ExportComment(cs[k]))
    {
      ExportCommentsAt(cs, k);
      ImportCommentsAt(ExportComments(cs), k);
    }
  }

  /** The archive's files of one topic, as the index must hold them for
      the topic to read back whole: every file written is found under its
      name, and no snapshot file stands where none was written. */
  ghost predicate HoldsTopicFiles(index: map<string, Content>, t: Topic) {
    var prefix := t.guid + "/";
    var refs := ExportRefs(t.viewpoints);
    (forall e :: e in TopicEntries(t) ==> e.name in index && index[e.name] == e.content) &&
    (forall j :: 0 <= j < |refs| && |SnapshotBytes(t.viewpoints[j])| == 0 ==> prefix + refs[j].snapshot !in index)
  }

  /** A viewpoint after export and import. */
  function ViewpointRoundTrip(vp: Viewpoint): Viewpoint {
    var snap := SnapshotBytes(vp);
    ImportVisInfo(ExportVisInfo(vp)).(snapshotBase64 := if |snap| > 0 then Some(DataUrl(snap)) else None)
  }

  lemma {:induction false} ViewpointsRoundTrip(index: map<string, Content>, prefix: string, vps: seq<Viewpoint>)
    requires forall e :: e in AllViewpointEntries(prefix, vps) ==> e.name in index && index[e.name] == e.content
    requires forall j :: 0 <= j < |vps| && |SnapshotBytes(vps[j])| == 0 ==> prefix + ExportRefs(vps)[j].snapshot !in index
    ensures ImportViewpoints(index, prefix, ExportRefs(vps)) == ViewpointsAfterRoundTrip(vps)
    decreases |vps|
  {
    if |vps| > 0 {
      var n := |vps| - 1;
      var init := vps[..n];
      var refs := ExportRefs(vps);
      assert refs[..n] == ExportRefs(init);
      assert AllViewpointEntries(prefix, vps) == AllViewpointEntries(prefix, init) + ViewpointEntries(prefix, n, vps[n]);
      forall e | e in AllViewpointEntries(prefix, init) ensures e.name in index && index[e.name] == e.content {
        assert e in AllViewpointEntries(prefix, vps);
      }
      forall j | 0 <= j < |init| && |SnapshotBytes(init[j])| == 0 ensures prefix + ExportRefs(init)[j].snapshot !in index {
        assert init[j] == vps[j] && ExportRefs(init)[j] == refs[j];
      }
      ViewpointsRoundTrip(index, prefix, init);
      LastViewpointReads(index, prefix, vps);
      assert ImportViewpoints(index, prefix, refs) == ImportViewpoints(index, prefix, ExportRefs(init)) + [ViewpointRoundTrip(vps[n])];
    }
  }

  /** Each viewpoint after export and import, in order. */
  function ViewpointsAfterRoundTrip(vps: seq<Viewpoint>): (r: seq<Viewpoint>)
    ensures |r| == |vps|
    decreases |vps|
  {
    if |vps| == 0 then [] else ViewpointsAfterRoundTrip(vps[..|vps| - 1]) + [ViewpointRoundTrip(vps[|vps| - 1])]
  }

  lemma {:induction false} ViewpointsAfterRoundTripAt(vps: seq<Viewpoint>, j: nat)
    requires j < |vps|
    ensures ViewpointsAfterRoundTrip(vps)[j] == ViewpointRoundTrip(vps[j])
    decreases |vps|
  {
    if j < |vps| - 1 {
      ViewpointsAfterRoundTripAt(vps[..|vps| - 1], j);
    }
  }

  /** The last viewpoint's reference resolves to what was written for it. */
  lemma LastViewpointReads(index: map<string, Content>, prefix: string, vps: seq<Viewpoint>)
    requires |vps| > 0
    requires forall e :: e in AllViewpointEntries(prefix, vps) ==> e.name in index && index[e.name] == e.content
    requires forall j :: 0 <= j < |vps| && |SnapshotBytes(vps[j])| == 0 ==> prefix + ExportRefs(vps)[j].snapshot !in index
    ensures ImportViewpoint(index, prefix, ExportRefs(vps)[|vps| - 1]) == Some(ViewpointRoundTrip(vps[|vps| - 1]))
  {
    var n := |vps| - 1;
    var ref := ExportRefs(vps)[n];
    RefsNameEntries(prefix, vps, n);
    RefAt(vps, n);
    SnapshotRef(n, vps[n]);
    var path := prefix + ref.viewpoint;
    assert path in index && index[path] == VisInfoFile(ExportVisInfo(vps[n]));
    var snap := SnapshotBytes(vps[n]);
    if |snap| > 0 {
      assert index[prefix + ref.snapshot] == Blob(snap);
      assert ImportSnapshot(index, prefix, ref) == Some(DataUrl(snap));
    } else {
      assert ImportSnapshot(index, prefix, ref) == None;
    }
  }

  lemma SnapshotRef(i: nat, vp: Viewpoint)
    ensures ExportRef(i, vp).snapshot != ""
  {
    var s := ExportRef(i, vp).snapshot;
    if i == 0 {
      assert s == "snapshot.png";
    } else {
      assert s == vp.guid + ".png";
      assert |s| >= 4;
    }
  }

  /** A topic exported and read back from an archive that holds its files:
      GUID, title and status survive; description, priority and type
      survive unless they were "" (then they come back absent); every
      viewpoint comes back in order with its camera and snapshot; every
      comment comes back with its body. */
  lemma TopicRoundTrip(index: map<string, Content>, t: Topic)
    requires HoldsTopicFiles(index, t)
    ensures var r := ImportMarkup(index, t.guid + "/", ExportMarkup(t));
      r.guid == t.guid && r.title == t.title && r.topicStatus == t.topicStatus &&
      r.description == NonEmpty(DerefStr(t.description)) &&
      r.priority == NonEmpty(DerefStr(t.priority)) &&
      r.topicType == NonEmpty(DerefStr(t.topicType)) &&
      r.viewpoints == ViewpointsAfterRoundTrip(t.viewpoints) &&
      |r.comments| == |t.comments|
    ensures var r := ImportMarkup(index, t.guid + "/", ExportMarkup(t));
      forall k :: 0 <= k < |t.comments| ==>
        r.comments[k].body == t.comments[k].body &&
        r.comments[k].authorName == NonEmpty(DerefStr(t.comments[k].authorName))
  {
    CommentsRoundTrip(t.comments);
    var prefix := t.guid + "/";
    forall e | e in AllViewpointEntries(prefix, t.viewpoints) ensures e.name in index && index[e.name] == e.content {
      assert e in TopicEntries(t);
    }
    ViewpointsRoundTrip(index, prefix, t.viewpoints);
  }

  /** The markup file of an exported topic is found at its path and read
      as that topic's markup, in the topic's folder. */
  lemma MarkupPathReadsBack(index: map<string, Content>, t: Topic)
    requires HoldsTopicFiles(index, t)
    ensures ImportEntry(index, t.guid + "/" + MarkupFileName) == Some(ImportMarkup(index, t.guid + "/", ExportMarkup(t)))
  {
    var path := t.guid + "/" + MarkupFileName;
    var m := ExportMarkup(t);
    assert Entry(path, MarkupFile(m)) in TopicEntries(t) by {
      TopicEntriesLayout(t);
    }
    FolderMarkupPath(t.guid);
    ImportEntryMarkup(index, path, t.guid + "/", m);
  }

  /** The markup path of a folder ends in "/markup.bcf" and trims back to the folder. */
  lemma FolderMarkupPath(guid: string)
    ensures var path := guid + "/" + MarkupFileName;
      HasSuffix(path, "/" + MarkupFileName) && TrimSuffix(path, MarkupFileName) == guid + "/"
  {
    var path := guid + "/" + MarkupFileName;
    assert path[|path| - |"/" + MarkupFileName|..] == "/" + MarkupFileName;
    assert path[..|path| - |MarkupFileName|] == guid + "/";
  }

  /** A markup file found at a markup path is read in the folder that path names. */
  lemma ImportEntryMarkup(index: map<string, Content>, path: string, dir: string, m: Markup)
    requires HasSuffix(path, "/" + MarkupFileName) && TrimSuffix(path, MarkupFileName) == dir
    requires path in index && index[path] == MarkupFile(m)
    ensures ImportEntry(index, path) == Some(ImportMarkup(index, dir, m))
  {
  }

  /** A viewpoint's snapshot survives the round trip: the data URL read
      back decodes to the bytes that were written. */
  lemma SnapshotRoundTrip(vp: Viewpoint)
    ensures ViewpointRoundTrip(vp).snapshotBase64.Some? ==>
              DecodeDataUrl(ViewpointRoundTrip(vp).snapshotBase64.value) == SnapshotBytes(vp)
    ensures ViewpointRoundTrip(vp).snapshotBase64.Some? <==> |SnapshotBytes(vp)| > 0
  {
    if |SnapshotBytes(vp)| > 0 {
      DataUrlRoundTrip(SnapshotBytes(vp));
    }
  }

  /** In an archive whose names are all distinct, the index holds each entry under its name. */
  lemma {:induction false} IndexHoldsDistinct(entries: seq<Entry>)
    requires forall i, j :: 0 <= i < j < |entries| ==> entries[i].name != entries[j].name
    ensures forall e :: e in entries ==> e.name in Index(entries) && Index(entries)[e.name] == e.content
    decreases |entries|
  {
    if |entries| > 0 {
      var init := entries[..|entries| - 1];
      IndexHoldsDistinct(init);
      forall e | e in entries ensures e.name in Index(entries) && Index(entries)[e.name] == e.content {
        if e != entries[|entries| - 1] {
          var k :| 0 <= k < |entries| && entries[k] == e;
          assert init[k] == e;
        }
      }
    }
  }
}
