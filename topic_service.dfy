/** The BCF topic service of collab/service.go over an in-memory database.

    Each operation's outcome at the database (a statement that fails, a
    fetch that fails) is a parameter, as are fresh ids and the clock. */
module TopicService {
  import opened Wrappers
  import opened CollabTypes
  import opened TopicQuery
  import Bcf

  /** The status every new topic gets. */
  const StatusOpen: string := "Open"

  // ---------------------------------------------------------------------
  // Rows read back as records

  function ProfileName(profiles: map<string, string>, id: string): Option<string> {
    if id in profiles then Some(profiles[id]) else None
  }

  function ToTopic(row: TopicRow, profiles: map<string, string>, vps: seq<Viewpoint>, comments: seq<Comment>): Topic {
    Topic(row.id, row.guid, row.title, row.description, row.priority, row.topicType, row.topicStatus,
          row.stage, row.assignedTo, None, row.dueDate, row.labels, row.projectId, row.creatorId,
          ProfileName(profiles, row.creatorId), row.modifiedBy, vps, comments, [], row.createdAt, row.updatedAt)
  }

  /** A viewpoint row as returned: the snapshot becomes a data URL only when there are bytes. */
  function ToViewpoint(row: ViewpointRow): (v: Viewpoint)
    ensures v.snapshotBase64.Some? <==> |row.snapshotData| > 0
  {
    Viewpoint(row.id, row.guid, row.topicId, row.cameraType, row.cameraPosition, row.cameraDirection,
              row.cameraUp, row.fieldOfView, row.viewWorldScale,
              if |row.snapshotData| > 0 then Some(Bcf.DataUrl(row.snapshotData)) else None,
              Some(row.components), Some(row.clippingPlanes), None, row.createdAt)
  }

  /** The data URL a listed viewpoint carries decodes to the stored bytes. */
  lemma ToViewpointDecodes(row: ViewpointRow)
    ensures var v := ToViewpoint(row);
      v.snapshotBase64.Some? ==> Bcf.DecodeDataUrl(v.snapshotBase64.value) == row.snapshotData
  {
    Bcf.DataUrlRoundTrip(row.snapshotData);
  }

  function ToComment(row: CommentRow, profiles: map<string, string>): Comment {
    Comment(row.id, row.body, row.viewpointId, row.topicId, row.authorId,
            ProfileName(profiles, row.authorId), row.createdAt, row.updatedAt)
  }

  function ViewpointsFromRows(rows: seq<ViewpointRow>): (r: seq<Viewpoint>)
    ensures |r| == |rows|
    decreases |rows|
  {
    if |rows| == 0 then [] else ViewpointsFromRows(rows[..|rows| - 1]) + [ToViewpoint(rows[|rows| - 1])]
  }

  /** One more row adds its viewpoint at the end. */
  lemma ViewpointsFromRowsStep(rows: seq<ViewpointRow>, i: nat)
    requires i < |rows|
    ensures ViewpointsFromRows(rows[..i + 1]) == ViewpointsFromRows(rows[..i]) + [ToViewpoint(rows[i])]
  {
    assert rows[..i + 1][..i] == rows[..i];
  }

  function CommentsFromRows(rows: seq<CommentRow>, profiles: map<string, string>): (r: seq<Comment>)
    ensures |r| == |rows|
    decreases |rows|
  {
    if |rows| == 0 then [] else CommentsFromRows(rows[..|rows| - 1], profiles) + [ToComment(rows[|rows| - 1], profiles)]
  }

  // ---------------------------------------------------------------------
  // Queries

  function ViewpointRowsOf(rows: seq<ViewpointRow>, topicId: string): (r: seq<ViewpointRow>)
    ensures forall v :: v in r <==> v in rows && v.topicId == topicId
    decreases |rows|
  {
    if |rows| == 0 then []
    else
      var init := ViewpointRowsOf(rows[..|rows| - 1], topicId);
      assert rows == rows[..|rows| - 1] + [rows[|rows| - 1]];
      if rows[|rows| - 1].topicId == topicId then init + [rows[|rows| - 1]] else init
  }

  function CommentRowsOf(rows: seq<CommentRow>, topicId: string): (r: seq<CommentRow>)
    ensures forall c :: c in r <==> c in rows && c.topicId == topicId
    decreases |rows|
  {
    if |rows| == 0 then []
    else
      var init := CommentRowsOf(rows[..|rows| - 1], topicId);
      assert rows == rows[..|rows| - 1] + [rows[|rows| - 1]];
      if rows[|rows| - 1].topicId == topicId then init + [rows[|rows| - 1]] else init
  }

  /** `LIMIT n` when n is positive, no limit otherwise. */
  function Limit<T>(s: seq<T>, limit: int): (r: seq<T>)
    ensures limit > 0 ==> |r| == if limit < |s| then limit else |s|
    ensures limit <= 0 ==> r == s
    ensures r <= s
  {
    if limit > 0 && limit < |s| then s[..limit] else s
  }

  /** The viewpoint rows listViewpoints reads: the topic's, oldest first, limited. */
  function ViewpointRowsFor(db: Db, topicId: string, limit: int): seq<ViewpointRow> {
    Limit(SortBy(ViewpointRowsOf(db.viewpoints, topicId), ViewpointCreated), limit)
  }

  function ViewpointsOf(db: Db, topicId: string, limit: int): seq<Viewpoint> {
    ViewpointsFromRows(ViewpointRowsFor(db, topicId, limit))
  }

  function CommentsOf(db: Db, topicId: string): seq<Comment> {
    CommentsFromRows(SortBy(CommentRowsOf(db.comments, topicId), CommentCreated), db.profiles)
  }

  /** The first row with the id, as `QueryRow` reads it. */
  function FindTopic(rows: seq<TopicRow>, id: string): (r: Option<TopicRow>)
    ensures r.Some? ==> r.value in rows && r.value.id == id
    ensures r.None? <==> forall t :: t in rows ==> t.id != id
    decreases |rows|
  {
    if |rows| == 0 then None
    else if rows[0].id == id then Some(rows[0])
    else
      assert rows == [rows[0]] + rows[1..];
      FindTopic(rows[1..], id)
  }

  /** How the three reads of one GetTopic end: the topic row, then its
      viewpoints and its comments, whose failures the Go code discards. */
  datatype FetchOutcome = FetchOutcome(rowOk: bool, viewpointsOk: bool, commentsOk: bool)

  /** GetTopic: the topic with all its viewpoints and comments; a failed
      viewpoint or comment read leaves that list empty. */
  function Fetched(db: Db, topicId: string, o: FetchOutcome): Result<Topic, string> {
    if !o.rowOk then Err("get topic")
    else match FindTopic(db.topics, topicId)
      case None => Err("get topic")
      case Some(row) =>
        Ok(ToTopic(row, db.profiles, if o.viewpointsOk then ViewpointsOf(db, topicId, 0) else [],
                   if o.commentsOk then CommentsOf(db, topicId) else []))
  }

  /** The rows the database returns for a query: those it selects, newest first. */
  function Execute(rows: seq<TopicRow>, q: Query): seq<TopicRow> {
    SortBy(SelectRows(rows, q), NewestFirstKey)
  }

  function SelectRows(rows: seq<TopicRow>, q: Query): seq<TopicRow>
    decreases |rows|
  {
    if |rows| == 0 then []
    else
      var init := SelectRows(rows[..|rows| - 1], q);
      if Selects(q.conditions, q.args, rows[|rows| - 1]) then init + [rows[|rows| - 1]] else init
  }

  /** The ListTopics query returns the rows the filters describe. */
  lemma {:induction false} ExecuteListQuery(rows: seq<TopicRow>, projectId: string, f: TopicFilters)
    ensures SelectRows(rows, ListQuery(projectId, f)) == FilterRows(rows, projectId, f)
    decreases |rows|
  {
    if |rows| > 0 {
      ExecuteListQuery(rows[..|rows| - 1], projectId, f);
      QueryMeansFilters(projectId, f, rows[|rows| - 1]);
    }
  }

  /** The preview ListTopics attaches to a topic: its first viewpoint, or
      nothing when that read fails. */
  function Preview(db: Db, topicId: string, ok: bool): seq<Viewpoint> {
    if ok then ViewpointsOf(db, topicId, 1) else []
  }

  /** The topics ListTopics builds from the rows; `previewOk(i)` is whether
      the preview read of the i-th row succeeds. */
  function TopicsFromRows(db: Db, rows: seq<TopicRow>, previewOk: nat -> bool): (r: seq<Topic>)
    ensures |r| == |rows|
    decreases |rows|
  {
    if |rows| == 0 then []
    else
      var n := |rows| - 1;
      TopicsFromRows(db, rows[..n], previewOk) + [ToTopic(rows[n], db.profiles, Preview(db, rows[n].id, previewOk(n)), [])]
  }

  /** One more row adds its topic at the end. */
  lemma TopicsFromRowsStep(db: Db, rows: seq<TopicRow>, previewOk: nat -> bool, i: nat)
    requires i < |rows|
    ensures TopicsFromRows(db, rows[..i + 1], previewOk) ==
            TopicsFromRows(db, rows[..i], previewOk) + [ToTopic(rows[i], db.profiles, Preview(db, rows[i].id, previewOk(i)), [])]
  {
    assert rows[..i + 1][..i] == rows[..i];
  }

  function Listed(db: Db, projectId: string, f: TopicFilters, ok: bool, previewOk: nat -> bool): Result<seq<Topic>, string> {
    if !ok then Err("query topics") else Ok(TopicsFromRows(db, ListedRows(db.topics, projectId, f), previewOk))
  }

  // ---------------------------------------------------------------------
  // Writes

  /** Fresh ids for a topic and its viewpoint. */
  datatype FreshIds = FreshIds(topicId: string, topicGuid: string, viewpointId: string, viewpointGuid: string)

  /** How the statements of one CreateTopic end: the topic insert, the
      viewpoint insert and the clock reading CreateViewpoint makes for it,
      how many file links succeed before one fails, and the reads of the
      final fetch. */
  datatype CreateOutcome = CreateOutcome(insertTopic: bool, insertViewpoint: bool, viewpointAt: int, linksOk: nat,
                                         fetch: FetchOutcome)

  /** json.Marshal of an optional raw message: "null" when absent. */
  function MarshalRaw(m: Option<string>): string {
    if m.None? then "null" else m.value
  }

  function NewTopicRow(projectId: string, creatorId: string, req: CreateTopicRequest, ids: FreshIds, now: int): TopicRow {
    TopicRow(ids.topicId, ids.topicGuid, req.title, req.description, req.priority, req.topicType, StatusOpen,
             None, req.assignedTo, req.dueDate, req.labels, projectId, creatorId, None, now, now)
  }

  function NewViewpointRow(topicId: string, req: CreateViewpointRequest, ids: FreshIds, now: int): ViewpointRow {
    ViewpointRow(ids.viewpointId, ids.viewpointGuid, topicId, req.cameraType, req.cameraPosition,
                 req.cameraDirection, req.cameraUp, req.fieldOfView, req.viewWorldScale,
                 if req.snapshotBase64.Some? then Bcf.DecodeDataUrl(req.snapshotBase64.value) else [],
                 None, MarshalRaw(req.components), MarshalRaw(req.clippingPlanes), now)
  }

  /** The viewpoint CreateViewpoint returns: the request's camera, without snapshot or components. */
  function CreatedViewpoint(topicId: string, req: CreateViewpointRequest, ids: FreshIds, now: int): Viewpoint {
    Viewpoint(ids.viewpointId, ids.viewpointGuid, topicId, req.cameraType, req.cameraPosition,
              req.cameraDirection, req.cameraUp, req.fieldOfView, req.viewWorldScale, None, None, None, None, now)
  }

  /** One more file version adds its link at the end. */
  lemma LinksStep(topicId: string, fvs: seq<string>, j: nat)
    requires j < |fvs|
    ensures Links(topicId, fvs[..j + 1]) == Links(topicId, fvs[..j]) + [TopicFile(topicId, fvs[j])]
  {
    assert fvs[..j + 1][..j] == fvs[..j];
  }

  function Links(topicId: string, fileVersionIds: seq<string>): (r: seq<TopicFile>)
    ensures |r| == |fileVersionIds|
    ensures forall k :: 0 <= k < |r| ==> r[k] == TopicFile(topicId, fileVersionIds[k])
    decreases |fileVersionIds|
  {
    if |fileVersionIds| == 0 then []
    else Links(topicId, fileVersionIds[..|fileVersionIds| - 1]) + [TopicFile(topicId, fileVersionIds[|fileVersionIds| - 1])]
  }

  /** CreateTopic: the new database and the result. */
  function Created(db: Db, projectId: string, creatorId: string, req: CreateTopicRequest, ids: FreshIds,
                   now: int, o: CreateOutcome): (Db, Result<Topic, string>)
  {
    if !o.insertTopic then (db, Err("insert topic"))
    else
      var db1 := db.(topics := db.topics + [NewTopicRow(projectId, creatorId, req, ids, now)]);
      if req.viewpoint.Some? && !o.insertViewpoint then (db1, Err("create viewpoint"))
      else
        var db2 := if req.viewpoint.Some? then db1.(viewpoints := db1.viewpoints + [NewViewpointRow(ids.topicId, req.viewpoint.value, ids, o.viewpointAt)]) else db1;
        var fvs := req.fileVersionIds;
        if o.linksOk < |fvs| then (db2.(topicFiles := db2.topicFiles + Links(ids.topicId, fvs[..o.linksOk])), Err("link file"))
        else
          var db3 := db2.(topicFiles := db2.topicFiles + Links(ids.topicId, fvs));
          (db3, Fetched(db3, ids.topicId, o.fetch))
  }

  /** Whether a CreateTopic with this request and these outcomes succeeds. */
  predicate CreateSucceeds(req: CreateTopicRequest, o: CreateOutcome) {
    o.insertTopic && (req.viewpoint.Some? ==> o.insertViewpoint) && o.linksOk >= |req.fileVersionIds| && o.fetch.rowOk
  }

  /** UpdateTopic's SET clause: the title when non-empty, every other field
      when supplied, and always the update time. */
  function Merge(row: TopicRow, req: CreateTopicRequest, now: int): TopicRow {
    row.(
      title := if req.title != "" then req.title else row.title,
      description := if req.description.Some? then req.description else row.description,
      priority := if req.priority.Some? then req.priority else row.priority,
      topicType := if req.topicType.Some? then req.topicType else row.topicType,
      assignedTo := if req.assignedTo.Some? then req.assignedTo else row.assignedTo,
      dueDate := if req.dueDate.Some? then req.dueDate else row.dueDate,
      labels := if req.labels.Some? then req.labels else row.labels,
      updatedAt := now)
  }

  /** `UPDATE … WHERE id = $1` over the table. */
  function UpdateRows(rows: seq<TopicRow>, topicId: string, req: CreateTopicRequest, now: int): (r: seq<TopicRow>)
    ensures |r| == |rows|
    decreases |rows|
  {
    if |rows| == 0 then []
    else
      var last := rows[|rows| - 1];
      UpdateRows(rows[..|rows| - 1], topicId, req, now) + [if last.id == topicId then Merge(last, req, now) else last]
  }

  /** `DELETE … WHERE id = $1`. */
  function RemoveTopic(rows: seq<TopicRow>, topicId: string): (r: seq<TopicRow>)
    ensures forall t :: t in r <==> t in rows && t.id != topicId
    decreases |rows|
  {
    if |rows| == 0 then []
    else
      var init := RemoveTopic(rows[..|rows| - 1], topicId);
      assert rows == rows[..|rows| - 1] + [rows[|rows| - 1]];
      if rows[|rows| - 1].id == topicId then init else init + [rows[|rows| - 1]]
  }

  function RemoveComment(rows: seq<CommentRow>, commentId: string): (r: seq<CommentRow>)
    ensures forall c :: c in r <==> c in rows && c.id != commentId
    decreases |rows|
  {
    if |rows| == 0 then []
    else
      var init := RemoveComment(rows[..|rows| - 1], commentId);
      assert rows == rows[..|rows| - 1] + [rows[|rows| - 1]];
      if rows[|rows| - 1].id == commentId then init else init + [rows[|rows| - 1]]
  }

  function FindViewpoint(rows: seq<ViewpointRow>, id: string): (r: Option<ViewpointRow>)
    ensures r.Some? ==> r.value in rows && r.value.id == id
    decreases |rows|
  {
    if |rows| == 0 then None
    else if rows[0].id == id then Some(rows[0])
    else FindViewpoint(rows[1..], id)
  }

  /** GetSnapshot: the bytes and their media type, "png" unless the row says otherwise. */
  function Snapshot(db: Db, viewpointId: string, ok: bool): Result<(seq<byte>, string), string> {
    if !ok then Err("query snapshot")
    else match FindViewpoint(db.viewpoints, viewpointId)
      case None => Err("query snapshot")
      case Some(row) =>
        if |row.snapshotData| == 0 then Err("no snapshot")
        else Ok((row.snapshotData, "image/" + row.snapshotType.GetOr("png")))
  }

  // ---------------------------------------------------------------------
  // BCF import and export

  function ViewpointRequest(vp: Viewpoint): CreateViewpointRequest {
    CreateViewpointRequest(vp.cameraType, vp.cameraPosition, vp.cameraDirection, vp.cameraUp,
                           vp.fieldOfView, vp.viewWorldScale, vp.snapshotBase64, vp.components, vp.clippingPlanes)
  }

  /** The request ImportBCF makes of an imported topic: its texts and its first viewpoint. */
  function ImportRequest(t: Topic): CreateTopicRequest {
    CreateTopicRequest(t.title, t.description, t.priority, t.topicType, None, None, None, [],
                       if |t.viewpoints| > 0 then Some(ViewpointRequest(t.viewpoints[0])) else None)
  }

  /** Creating the imported topics in order: the database and the number
      created.  Each CreateTopic reads the clock anew: the i-th one is
      stamped `clock(i)`. */
  function ImportAll(db: Db, projectId: string, importerId: string, topics: seq<Topic>,
                     newIds: nat -> FreshIds, clock: nat -> int, outcomes: nat -> CreateOutcome): (Db, nat)
    decreases |topics|
  {
    if |topics| == 0 then (db, 0)
    else
      var n := |topics| - 1;
      var (db1, count) := ImportAll(db, projectId, importerId, topics[..n], newIds, clock, outcomes);
      var (db2, r) := Created(db1, projectId, importerId, ImportRequest(topics[n]), newIds(n), clock(n), outcomes(n));
      (db2, if r.Ok? then count + 1 else count)
  }

  lemma ImportAllStep(db: Db, projectId: string, importerId: string, topics: seq<Topic>, i: nat,
                      newIds: nat -> FreshIds, clock: nat -> int, outcomes: nat -> CreateOutcome)
    requires i < |topics|
    ensures var (db1, count) := ImportAll(db, projectId, importerId, topics[..i], newIds, clock, outcomes);
            var (db2, r) := Created(db1, projectId, importerId, ImportRequest(topics[i]), newIds(i), clock(i), outcomes(i));
            ImportAll(db, projectId, importerId, topics[..i + 1], newIds, clock, outcomes) == (db2, if r.Ok? then count + 1 else count)
  {
    assert topics[..i + 1][..i] == topics[..i];
  }

  /** How many of the topics are created. */
  function CountSucceeded(topics: seq<Topic>, outcomes: nat -> CreateOutcome): (c: nat)
    ensures c <= |topics|
    decreases |topics|
  {
    if |topics| == 0 then 0
    else
      var n := |topics| - 1;
      CountSucceeded(topics[..n], outcomes) + (if CreateSucceeds(ImportRequest(topics[n]), outcomes(n)) then 1 else 0)
  }

  /** ImportBCF's result for the bytes read. */
  function Imported(db: Db, projectId: string, importerId: string, archive: Bcf.Archive, order: seq<string>,
                    readOk: bool, newIds: nat -> FreshIds, clock: nat -> int, outcomes: nat -> CreateOutcome)
    : (Db, Result<nat, string>)
  {
    if !readOk then (db, Err("read file"))
    else match Bcf.Parsed(archive, order)
      case Err(_) => (db, Err("parse BCF"))
      case Ok(topics) =>
        var (db1, count) := ImportAll(db, projectId, importerId, topics, newIds, clock, outcomes);
        (db1, Ok(count))
  }

  /** The full topics ExportBCF fetches; a topic whose fetch fails is left out. */
  function FullTopics(db: Db, listed: seq<Topic>, fetches: string -> FetchOutcome): (r: seq<Topic>)
    ensures |r| <= |listed|
  {
    Collect(listed, id => Fetched(db, id, fetches(id)))
  }

  /** What a fetch loop keeps: the result of fetching each listed topic's
      id, in order, with a failed fetch left out. */
  function Collect(listed: seq<Topic>, fetch: string -> Result<Topic, string>): (r: seq<Topic>)
    ensures |r| <= |listed|
    decreases |listed|
  {
    if |listed| == 0 then []
    else
      var init := Collect(listed[..|listed| - 1], fetch);
      match fetch(listed[|listed| - 1].id)
      case Ok(t) => init + [t]
      case Err(_) => init
  }

  /** One more listed topic adds its fetched topic, when the fetch succeeds. */
  lemma FullTopicsStep(db: Db, listed: seq<Topic>, fetches: string -> FetchOutcome, i: nat)
    requires i < |listed|
    ensures var r := Fetched(db, listed[i].id, fetches(listed[i].id));
      FullTopics(db, listed[..i + 1], fetches) == FullTopics(db, listed[..i], fetches) + (if r.Ok? then [r.value] else [])
  {
    assert listed[..i + 1][..i] == listed[..i];
  }

  function ExportedArchive(db: Db, projectId: string, listOk: bool, previewOk: nat -> bool,
                           fetches: string -> FetchOutcome)
    : Result<seq<Bcf.Entry>, string>
  {
    match Listed(db, projectId, TopicFilters("", "", ""), listOk, previewOk)
    case Err(e) => Err(e)
    case Ok(listed) => Ok(Bcf.Exported(FullTopics(db, listed, fetches)))
  }

  // ---------------------------------------------------------------------
  // The service

  class Service {
    var topics: seq<TopicRow>
    var viewpoints: seq<ViewpointRow>
    var comments: seq<CommentRow>
    var topicFiles: seq<TopicFile>
    var profiles: map<string, string>

    function State(): Db
      reads this
    {
      Db(topics, viewpoints, comments, topicFiles, profiles)
    }

    constructor (db: Db)
      ensures State() == db
    {
      topics, viewpoints, comments, topicFiles, profiles := db.topics, db.viewpoints, db.comments, db.topicFiles, db.profiles;
    }

    /** listViewpoints: the topic's viewpoints, oldest first, at most
        `limit` when positive; `ok` is whether the query and its scans
        succeed, and a failure returns the database's error. */
    method ListViewpoints(topicId: string, limit: int, ok: bool) returns (result: Option<seq<Viewpoint>>)
      ensures result == if ok then Some(ViewpointsOf(State(), topicId, limit)) else None
    {
      if !ok {
        return None;
      }
      var rows := ViewpointRowsFor(State(), topicId, limit);
      var vps: seq<Viewpoint> := [];
      for i := 0 to |rows|
        invariant vps == ViewpointsFromRows(rows[..i])
      {
        var row := rows[i];
        ViewpointsFromRowsStep(rows, i);
        var snapshot: Option<string> := None;
        if |row.snapshotData| > 0 {
          var encoded := Bcf.DataUrlPrefix + Bcf.EncodeBase64(row.snapshotData);
          snapshot := Some(encoded);
        }
        vps := vps + [Viewpoint(row.id, row.guid, row.topicId, row.cameraType, row.cameraPosition,
                                row.cameraDirection, row.cameraUp, row.fieldOfView, row.viewWorldScale,
                                snapshot, Some(row.components), Some(row.clippingPlanes), None, row.createdAt)];
      }
      assert rows[..|rows|] == rows;
      result := Some(vps);
    }

    /** ListComments: the topic's comments, oldest first, with author
        names; `ok` is whether the query and its scans succeed, and a
        failure returns the database's error. */
    method ListComments(topicId: string, ok: bool) returns (result: Option<seq<Comment>>)
      ensures result == if ok then Some(CommentsOf(State(), topicId)) else None
    {
      if !ok {
        return None;
      }
      var rows := SortBy(CommentRowsOf(comments, topicId), CommentCreated);
      var cs: seq<Comment> := [];
      for i := 0 to |rows|
        invariant cs == CommentsFromRows(rows[..i], profiles)
      {
        cs := cs + [ToComment(rows[i], profiles)];
        assert rows[..i + 1][..i] == rows[..i];
      }
      assert rows[..|rows|] == rows;
      result := Some(cs);
    }

    /** GetTopic: the row query decides the result; the viewpoint and
        comment reads that follow have their errors discarded, which
        leaves that list empty. */
    method GetTopic(topicId: string, o: FetchOutcome) returns (result: Result<Topic, string>)
      ensures result == Fetched(State(), topicId, o)
    {
      if !o.rowOk {
        return Err("get topic");
      }
      var found := FindTopic(topics, topicId);
      if found.None? {
        return Err("get topic");
      }
      var vps := ListViewpoints(topicId, 0, o.viewpointsOk);
      var cs := ListComments(topicId, o.commentsOk);
      result := Ok(ToTopic(found.value, profiles, vps.GetOr([]), cs.GetOr([])));
    }

    /** ListTopics: the project's topics matching the filters, newest
        first, each with its first viewpoint as a preview; a failed
        preview read leaves that topic without one. */
    method ListTopics(projectId: string, filters: TopicFilters, ok: bool, previewOk: nat -> bool)
      returns (result: Result<seq<Topic>, string>)
      ensures result == Listed(State(), projectId, filters, ok, previewOk)
    {
      var query := BuildListQuery(projectId, filters);
      if !ok {
        return Err("query topics");
      }
      var rows := Execute(topics, query);
      ExecuteListQuery(topics, projectId, filters);
      var listed: seq<Topic> := [];
      for i := 0 to |rows|
        invariant listed == TopicsFromRows(State(), rows[..i], previewOk)
      {
        var vps := ListViewpoints(rows[i].id, 1, previewOk(i));
        TopicsFromRowsStep(State(), rows, previewOk, i);
        listed := listed + [ToTopic(rows[i], profiles, vps.GetOr([]), [])];
      }
      assert rows[..|rows|] == rows;
      result := Ok(listed);
    }

    /** CreateViewpoint: the row inserted for the request, and the viewpoint returned. */
    method CreateViewpoint(topicId: string, req: CreateViewpointRequest, ids: FreshIds, now: int, ok: bool)
      returns (result: Result<Viewpoint, string>)
      modifies this
      ensures ok ==> viewpoints == old(viewpoints) + [NewViewpointRow(topicId, req, ids, now)]
      ensures !ok ==> viewpoints == old(viewpoints)
      ensures topics == old(topics) && comments == old(comments) && topicFiles == old(topicFiles) && profiles == old(profiles)
      ensures result == if ok then Ok(CreatedViewpoint(topicId, req, ids, now)) else Err("insert viewpoint")
    {
      var snapshotData: seq<byte> := [];
      if req.snapshotBase64.Some? {
        snapshotData := Bcf.DecodeDataUrl(req.snapshotBase64.value);
      }
      if !ok {
        return Err("insert viewpoint");
      }
      viewpoints := viewpoints + [ViewpointRow(ids.viewpointId, ids.viewpointGuid, topicId, req.cameraType,
                                               req.cameraPosition, req.cameraDirection, req.cameraUp,
                                               req.fieldOfView, req.viewWorldScale, snapshotData, None,
                                               MarshalRaw(req.components), MarshalRaw(req.clippingPlanes), now)];
      result := Ok(CreatedViewpoint(topicId, req, ids, now));
    }

    /** CreateTopic: the topic row with status Open, the viewpoint when
        one is given, a link per file version, then the stored topic.  The
        statements are not one transaction: what was written before a
        failing statement stays. */
    method CreateTopic(projectId: string, creatorId: string, req: CreateTopicRequest, ids: FreshIds,
                       now: int, o: CreateOutcome)
      returns (result: Result<Topic, string>)
      modifies this
      ensures (State(), result) == Created(old(State()), projectId, creatorId, req, ids, now, o)
    {
      if !o.insertTopic {
        return Err("insert topic");
      }
      topics := topics + [TopicRow(ids.topicId, ids.topicGuid, req.title, req.description, req.priority,
                                   req.topicType, StatusOpen, None, req.assignedTo, req.dueDate, req.labels,
                                   projectId, creatorId, None, now, now)];
      if req.viewpoint.Some? {
        var created := CreateViewpoint(ids.topicId, req.viewpoint.value, ids, o.viewpointAt, o.insertViewpoint);
        if created.Err? {
          return Err("create viewpoint");
        }
      }
      var linked := LinkFiles(ids.topicId, req.fileVersionIds, o.linksOk);
      if !linked {
        return Err("link file");
      }
      result := GetTopic(ids.topicId, o.fetch);
    }

    /** CreateTopic's loop linking the topic to each file version, where
        the first `linksOk` inserts succeed; it stops at the first failure. */
    method LinkFiles(topicId: string, fvs: seq<string>, linksOk: nat) returns (ok: bool)
      modifies this
      ensures ok <==> linksOk >= |fvs|
      ensures topicFiles == old(topicFiles) + Links(topicId, if ok then fvs else fvs[..linksOk])
      ensures topics == old(topics) && viewpoints == old(viewpoints) && comments == old(comments) &&
              profiles == old(profiles)
    {
      for j := 0 to |fvs|
        invariant j <= linksOk
        invariant topicFiles == old(topicFiles) + Links(topicId, fvs[..j])
        invariant topics == old(topics) && viewpoints == old(viewpoints) && comments == old(comments) &&
                  profiles == old(profiles)
      {
        if j >= linksOk {
          return false;
        }
        LinksStep(topicId, fvs, j);
        topicFiles := topicFiles + [TopicFile(topicId, fvs[j])];
      }
      assert fvs[..|fvs|] == fvs;
      return true;
    }

    /** UpdateTopic: the merge applied to the topic's row, then the stored topic. */
    method UpdateTopic(topicId: string, req: CreateTopicRequest, now: int, execOk: bool, fetch: FetchOutcome)
      returns (result: Result<Topic, string>)
      modifies this
      ensures !execOk ==> State() == old(State()) && result == Err("update topic")
      ensures execOk ==> State() == old(State()).(topics := UpdateRows(old(topics), topicId, req, now))
      ensures execOk ==> result == Fetched(State(), topicId, fetch)
    {
      if !execOk {
        return Err("update topic");
      }
      topics := UpdateRows(topics, topicId, req, now);
      result := GetTopic(topicId, fetch);
    }

    method DeleteTopic(topicId: string, ok: bool) returns (error: Option<string>)
      modifies this
      ensures ok ==> State() == old(State()).(topics := RemoveTopic(old(topics), topicId)) && error.None?
      ensures !ok ==> State() == old(State()) && error.Some?
    {
      if !ok {
        return Some("delete topic");
      }
      topics := RemoveTopic(topics, topicId);
      error := None;
    }

    /** CreateComment: the row keeps the viewpoint it refers to; the
        comment returned carries neither that viewpoint nor the author's name. */
    method CreateComment(topicId: string, authorId: string, req: CreateCommentRequest, id: string, now: int, ok: bool)
      returns (result: Result<Comment, string>)
      modifies this
      ensures ok ==> State() == old(State()).(comments := old(comments) + [CommentRow(id, req.body, req.viewpointId, topicId, authorId, now, now)])
      ensures ok ==> result == Ok(Comment(id, req.body, None, topicId, authorId, None, now, now))
      ensures !ok ==> State() == old(State()) && result == Err("insert comment")
    {
      if !ok {
        return Err("insert comment");
      }
      comments := comments + [CommentRow(id, req.body, req.viewpointId, topicId, authorId, now, now)];
      result := Ok(Comment(id, req.body, None, topicId, authorId, None, now, now));
    }

    method DeleteComment(commentId: string, ok: bool) returns (error: Option<string>)
      modifies this
      ensures ok ==> State() == old(State()).(comments := RemoveComment(old(comments), commentId)) && error.None?
      ensures !ok ==> State() == old(State()) && error.Some?
    {
      if !ok {
        return Some("delete comment");
      }
      comments := RemoveComment(comments, commentId);
      error := None;
    }

    method GetSnapshot(viewpointId: string, ok: bool) returns (result: Result<(seq<byte>, string), string>)
      ensures result == Snapshot(State(), viewpointId, ok)
    {
      if !ok {
        return Err("query snapshot");
      }
      var found := FindViewpoint(viewpoints, viewpointId);
      if found.None? {
        return Err("query snapshot");
      }
      var data := found.value.snapshotData;
      if |data| == 0 {
        return Err("no snapshot");
      }
      result := Ok((data, "image/" + found.value.snapshotType.GetOr("png")));
    }

    /** ImportBCF: create a topic for every topic of the archive and count
        the ones created; a topic that fails is passed over. */
    method ImportBcf(projectId: string, importerId: string, archive: Bcf.Archive, order: seq<string>,
                     readOk: bool, newIds: nat -> FreshIds, clock: nat -> int, outcomes: nat -> CreateOutcome)
      returns (result: Result<nat, string>)
      requires archive.Zip? ==> Bcf.IsListing(order, Bcf.Index(archive.entries))
      modifies this
      ensures (State(), result) == Imported(old(State()), projectId, importerId, archive, order, readOk, newIds, clock, outcomes)
    {
      if !readOk {
        return Err("read file");
      }
      var parsed := Bcf.ParseBcfZip(archive, order);
      if parsed.Err? {
        return Err("parse BCF");
      }
      var count := CreateAll(projectId, importerId, parsed.value, newIds, clock, outcomes);
      result := Ok(count);
    }

    /** ImportBCF's loop: a CreateTopic per archive topic, counting the
        ones that succeed. */
    method CreateAll(projectId: string, importerId: string, imported: seq<Topic>,
                     newIds: nat -> FreshIds, clock: nat -> int, outcomes: nat -> CreateOutcome)
      returns (count: nat)
      modifies this
      ensures (State(), count) == ImportAll(old(State()), projectId, importerId, imported, newIds, clock, outcomes)
    {
      count := 0;
      ghost var start := State();
      for i := 0 to |imported|
        invariant (State(), count) == ImportAll(start, projectId, importerId, imported[..i], newIds, clock, outcomes)
      {
        ImportAllStep(start, projectId, importerId, imported, i, newIds, clock, outcomes);
        var created := CreateTopic(projectId, importerId, ImportRequest(imported[i]), newIds(i), clock(i), outcomes(i));
        if created.Ok? {
          count := count + 1;
        }
      }
      assert imported[..|imported|] == imported;
    }

    /** ExportBCF: every topic of the project, fetched in full, written as
        a BCF archive; a topic whose fetch fails is left out. */
    method ExportBcf(projectId: string, listOk: bool, previewOk: nat -> bool, fetches: string -> FetchOutcome)
      returns (result: Result<seq<Bcf.Entry>, string>)
      ensures result == ExportedArchive(State(), projectId, listOk, previewOk, fetches)
    {
      var listed := ListTopics(projectId, TopicFilters("", "", ""), listOk, previewOk);
      if listed.Err? {
        return Err(listed.error);
      }
      var full := FetchAll(listed.value, fetches);
      var archive := Bcf.ExportBcfZip(full);
      result := Ok(archive);
    }

    /** ExportBCF's loop: a GetTopic per listed topic, keeping the ones
        fetched. */
    method FetchAll(all: seq<Topic>, fetches: string -> FetchOutcome) returns (full: seq<Topic>)
      ensures full == FullTopics(State(), all, fetches)
    {
      full := [];
      for i := 0 to |all|
        invariant full == FullTopics(State(), all[..i], fetches)
      {
        var fetched := GetTopic(all[i].id, fetches(all[i].id));
        FullTopicsStep(State(), all, fetches, i);
        if fetched.Ok? {
          full := full + [fetched.value];
        }
      }
      assert all[..|all|] == all;
    }
  }

  // ---------------------------------------------------------------------
  // Properties

  lemma {:induction false} ViewpointsFromRowsAt(rows: seq<ViewpointRow>, k: nat)
    requires k < |rows|
    ensures ViewpointsFromRows(rows)[k] == ToViewpoint(rows[k])
    decreases |rows|
  {
    if k < |rows| - 1 {
      ViewpointsFromRowsAt(rows[..|rows| - 1], k);
    }
  }

  lemma {:induction false} CommentsFromRowsAt(rows: seq<CommentRow>, profiles: map<string, string>, k: nat)
    requires k < |rows|
    ensures CommentsFromRows(rows, profiles)[k] == ToComment(rows[k], profiles)
    decreases |rows|
  {
    if k < |rows| - 1 {
      CommentsFromRowsAt(rows[..|rows| - 1], profiles, k);
    }
  }

  lemma {:induction false} TopicsFromRowsAt(db: Db, rows: seq<TopicRow>, previewOk: nat -> bool, k: nat)
    requires k < |rows|
    ensures TopicsFromRows(db, rows, previewOk)[k] == ToTopic(rows[k], db.profiles, Preview(db, rows[k].id, previewOk(k)), [])
    decreases |rows|
  {
    if k < |rows| - 1 {
      TopicsFromRowsAt(db, rows[..|rows| - 1], previewOk, k);
    }
  }

  /** listViewpoints returns only the topic's viewpoints, oldest first,
      at most `limit` of them when the limit is positive and all of them
      otherwise. */
  lemma ViewpointsOfMeaning(db: Db, topicId: string, limit: int)
    ensures var vs := ViewpointsOf(db, topicId, limit);
      (forall k :: 0 <= k < |vs| ==> vs[k].topicId == topicId) &&
      (forall k :: 0 < k < |vs| ==> vs[k - 1].createdAt <= vs[k].createdAt) &&
      (limit > 0 ==> |vs| <= limit) &&
      (limit <= 0 ==> |vs| == |ViewpointRowsOf(db.viewpoints, topicId)|)
  {
    var own := ViewpointRowsOf(db.viewpoints, topicId);
    var sorted := SortBy(own, ViewpointCreated);
    SortByOrders(own, ViewpointCreated);
    var rows := ViewpointRowsFor(db, topicId, limit);
    var vs := ViewpointsOf(db, topicId, limit);
    forall k | 0 <= k < |vs| ensures vs[k].topicId == topicId && vs[k].createdAt == rows[k].createdAt {
      ViewpointsFromRowsAt(rows, k);
      assert rows[k] == sorted[k];
      assert sorted[k] in multiset(own);
    }
    forall k | 0 < k < |vs| ensures vs[k - 1].createdAt <= vs[k].createdAt {
      assert rows[k - 1] == sorted[k - 1] && rows[k] == sorted[k];
      assert ViewpointCreated(sorted[k - 1]) <= ViewpointCreated(sorted[k]);
    }
  }

  /** A topic's comments are its own, oldest first, with each author's profile name. */
  lemma CommentsOfMeaning(db: Db, topicId: string)
    ensures var cs := CommentsOf(db, topicId);
      |cs| == |CommentRowsOf(db.comments, topicId)| &&
      (forall k :: 0 <= k < |cs| ==> cs[k].topicId == topicId && cs[k].authorName == ProfileName(db.profiles, cs[k].authorId)) &&
      (forall k :: 0 < k < |cs| ==> cs[k - 1].createdAt <= cs[k].createdAt)
  {
    var own := CommentRowsOf(db.comments, topicId);
    var rows := SortBy(own, CommentCreated);
    SortByOrders(own, CommentCreated);
    var cs := CommentsOf(db, topicId);
    forall k | 0 <= k < |cs|
      ensures cs[k].topicId == topicId && cs[k].authorName == ProfileName(db.profiles, cs[k].authorId)
      ensures cs[k].createdAt == rows[k].createdAt
    {
      CommentsFromRowsAt(rows, db.profiles, k);
      assert rows[k] in multiset(own);
    }
    forall k | 0 < k < |cs| ensures cs[k - 1].createdAt <= cs[k].createdAt {
      assert CommentCreated(rows[k - 1]) <= CommentCreated(rows[k]);
    }
  }

  /** GetTopic finds a topic exactly when its row read succeeds and the
      row exists, and then returns it with all its own viewpoints and all
      its own comments, except that a failed viewpoint or comment read
      leaves that list empty instead of failing the call. */
  lemma FetchedMeaning(db: Db, topicId: string, o: FetchOutcome)
    ensures Fetched(db, topicId, o).Ok? <==> o.rowOk && exists t :: t in db.topics && t.id == topicId
    ensures Fetched(db, topicId, o).Ok? ==>
      var t := Fetched(db, topicId, o).value;
      t.id == topicId &&
      |t.viewpoints| == (if o.viewpointsOk then |ViewpointRowsOf(db.viewpoints, topicId)| else 0) &&
      |t.comments| == (if o.commentsOk then |CommentRowsOf(db.comments, topicId)| else 0) &&
      (forall k :: 0 <= k < |t.viewpoints| ==> t.viewpoints[k].topicId == topicId) &&
      (forall k :: 0 <= k < |t.comments| ==> t.comments[k].topicId == topicId)
  {
    ViewpointsOfMeaning(db, topicId, 0);
    CommentsOfMeaning(db, topicId);
  }

  /** ListTopics returns the project's topics that match every non-empty
      filter, newest first, each with at most one viewpoint of its own and
      no comments; a topic whose preview read fails has no viewpoint. */
  lemma ListedMeaning(db: Db, projectId: string, f: TopicFilters, previewOk: nat -> bool)
    ensures Listed(db, projectId, f, true, previewOk).Ok?
    ensures var ts := Listed(db, projectId, f, true, previewOk).value;
      |ts| == |FilterRows(db.topics, projectId, f)| &&
      (forall k :: 0 <= k < |ts| ==>
        ts[k].projectId == projectId &&
        (f.status != "" ==> ts[k].topicStatus == f.status) &&
        (f.priority != "" ==> ts[k].priority == Some(f.priority)) &&
        (f.assignedTo != "" ==> ts[k].assignedTo == Some(f.assignedTo)) &&
        |ts[k].viewpoints| <= 1 &&
        (!previewOk(k) ==> ts[k].viewpoints == []) &&
        (forall j :: 0 <= j < |ts[k].viewpoints| ==> ts[k].viewpoints[j].topicId == ts[k].id) &&
        ts[k].comments == []) &&
      (forall k :: 0 < k < |ts| ==> ts[k - 1].createdAt >= ts[k].createdAt)
  {
    var rows := ListedRows(db.topics, projectId, f);
    ListedRowsMeaning(db.topics, projectId, f);
    var ts := Listed(db, projectId, f, true, previewOk).value;
    forall k | 0 <= k < |ts|
      ensures ts[k].projectId == projectId
      ensures f.status != "" ==> ts[k].topicStatus == f.status
      ensures f.priority != "" ==> ts[k].priority == Some(f.priority)
      ensures f.assignedTo != "" ==> ts[k].assignedTo == Some(f.assignedTo)
      ensures |ts[k].viewpoints| <= 1 && ts[k].comments == []
      ensures !previewOk(k) ==> ts[k].viewpoints == []
      ensures forall j :: 0 <= j < |ts[k].viewpoints| ==> ts[k].viewpoints[j].topicId == ts[k].id
      ensures ts[k].createdAt == rows[k].createdAt
    {
      TopicsFromRowsAt(db, rows, previewOk, k);
      ViewpointsOfMeaning(db, rows[k].id, 1);
      assert rows[k] in rows;
    }
  }

  lemma {:induction false} FindTopicLast(rows: seq<TopicRow>, row: TopicRow)
    requires forall t :: t in rows ==> t.id != row.id
    ensures FindTopic(rows + [row], row.id) == Some(row)
    decreases |rows|
  {
    if |rows| > 0 {
      assert (rows + [row])[1..] == rows[1..] + [row];
      FindTopicLast(rows[1..], row);
    }
  }

  lemma {:induction false} FindViewpointLast(rows: seq<ViewpointRow>, row: ViewpointRow)
    requires forall v :: v in rows ==> v.id != row.id
    ensures FindViewpoint(rows + [row], row.id) == Some(row)
    decreases |rows|
  {
    if |rows| > 0 {
      assert (rows + [row])[1..] == rows[1..] + [row];
      FindViewpointLast(rows[1..], row);
    }
  }

  /** CreateTopic succeeds exactly when every statement does. */
  lemma CreateSuccessIff(db: Db, projectId: string, creatorId: string, req: CreateTopicRequest,
                         ids: FreshIds, now: int, o: CreateOutcome)
    ensures Created(db, projectId, creatorId, req, ids, now, o).1.Ok? <==> CreateSucceeds(req, o)
  {
    if CreateSucceeds(req, o) {
      var db1 := Created(db, projectId, creatorId, req, ids, now, o).0;
      assert NewTopicRow(projectId, creatorId, req, ids, now) in db1.topics;
    }
  }

  /** CreateTopic is not atomic: once the topic row is inserted it stays,
      with status Open, whatever fails afterwards; a viewpoint row is added
      only for a supplied viewpoint; comments and profiles are untouched. */
  lemma CreatePartialWrites(db: Db, projectId: string, creatorId: string, req: CreateTopicRequest,
                            ids: FreshIds, now: int, o: CreateOutcome)
    ensures var after := Created(db, projectId, creatorId, req, ids, now, o).0;
      (o.insertTopic <==> after.topics == db.topics + [NewTopicRow(projectId, creatorId, req, ids, now)]) &&
      (!o.insertTopic ==> after == db) &&
      NewTopicRow(projectId, creatorId, req, ids, now).topicStatus == StatusOpen &&
      (|after.viewpoints| == |db.viewpoints| + 1 <==> o.insertTopic && req.viewpoint.Some? && o.insertViewpoint) &&
      db.viewpoints <= after.viewpoints && |after.viewpoints| <= |db.viewpoints| + 1 &&
      db.topicFiles <= after.topicFiles &&
      after.comments == db.comments && after.profiles == db.profiles
  {
  }

  /** A stored viewpoint row of a topic is among the viewpoints GetTopic
      lists for it. */
  lemma StoredViewpointListed(db: Db, topicId: string, row: ViewpointRow)
    requires row in db.viewpoints && row.topicId == topicId
    ensures ToViewpoint(row) in ViewpointsOf(db, topicId, 0)
  {
    var own := ViewpointRowsOf(db.viewpoints, topicId);
    var sorted := SortBy(own, ViewpointCreated);
    SortByOrders(own, ViewpointCreated);
    assert row in multiset(sorted);
    var k :| 0 <= k < |sorted| && sorted[k] == row;
    assert ViewpointRowsFor(db, topicId, 0) == sorted;
    ViewpointsFromRowsAt(sorted, k);
  }

  /** A successful CreateTopic links every file version in order and
      returns the new topic as stored, open, with the request's fields,
      and with the viewpoint it created when its viewpoints were read. */
  lemma CreatedTopic(db: Db, projectId: string, creatorId: string, req: CreateTopicRequest,
                     ids: FreshIds, now: int, o: CreateOutcome)
    requires CreateSucceeds(req, o)
    requires forall t :: t in db.topics ==> t.id != ids.topicId
    ensures var (after, r) := Created(db, projectId, creatorId, req, ids, now, o);
      after.topicFiles == db.topicFiles + Links(ids.topicId, req.fileVersionIds) &&
      r.Ok? && r.value.id == ids.topicId && r.value.guid == ids.topicGuid &&
      r.value.title == req.title && r.value.description == req.description &&
      r.value.priority == req.priority && r.value.labels == req.labels &&
      r.value.topicType == req.topicType && r.value.assignedTo == req.assignedTo &&
      r.value.dueDate == req.dueDate &&
      r.value.topicStatus == StatusOpen && r.value.projectId == projectId &&
      r.value.creatorId == creatorId && r.value.createdAt == now && r.value.updatedAt == now
    ensures var (after, r) := Created(db, projectId, creatorId, req, ids, now, o);
      req.viewpoint.Some? && o.fetch.viewpointsOk ==>
        ToViewpoint(NewViewpointRow(ids.topicId, req.viewpoint.value, ids, o.viewpointAt)) in r.value.viewpoints
  {
    FindTopicLast(db.topics, NewTopicRow(projectId, creatorId, req, ids, now));
    var after := Created(db, projectId, creatorId, req, ids, now, o).0;
    if req.viewpoint.Some? && o.fetch.viewpointsOk {
      StoredViewpointListed(after, ids.topicId, NewViewpointRow(ids.topicId, req.viewpoint.value, ids, o.viewpointAt));
    }
  }

  /** A stored viewpoint reads back with the camera it was created with;
      its components and clipping planes read back as given, or as the
      text "null" when not given. */
  lemma StoredViewpointReadsBack(topicId: string, req: CreateViewpointRequest, ids: FreshIds, now: int)
    ensures var v := ToViewpoint(NewViewpointRow(topicId, req, ids, now));
      v.id == ids.viewpointId && v.topicId == topicId && v.cameraType == req.cameraType &&
      v.cameraPosition == req.cameraPosition && v.cameraDirection == req.cameraDirection &&
      v.cameraUp == req.cameraUp && v.fieldOfView == req.fieldOfView &&
      v.viewWorldScale == req.viewWorldScale &&
      (req.components.Some? ==> v.components == req.components) &&
      (req.components.None? ==> v.components == Some("null")) &&
      (req.clippingPlanes.Some? ==> v.clippingPlanes == req.clippingPlanes) &&
      (req.clippingPlanes.None? ==> v.clippingPlanes == Some("null"))
  {
  }

  /** A snapshot sent as a PNG data URL is stored as its bytes: listing
      returns the same data URL and GetSnapshot returns the bytes as a PNG. */
  lemma SnapshotRoundTrip(db: Db, topicId: string, req: CreateViewpointRequest, ids: FreshIds, now: int, png: seq<byte>)
    requires req.snapshotBase64 == Some(Bcf.DataUrl(png)) && |png| > 0
    requires forall v :: v in db.viewpoints ==> v.id != ids.viewpointId
    ensures ToViewpoint(NewViewpointRow(topicId, req, ids, now)).snapshotBase64 == req.snapshotBase64
    ensures Snapshot(db.(viewpoints := db.viewpoints + [NewViewpointRow(topicId, req, ids, now)]),
                     ids.viewpointId, true) == Ok((png, "image/png"))
  {
    var row := NewViewpointRow(topicId, req, ids, now);
    Bcf.DataUrlRoundTrip(png);
    assert row.snapshotData == png;
    assert row.snapshotType.GetOr("png") == "png";
    FindViewpointLast(db.viewpoints, row);
    var db1 := db.(viewpoints := db.viewpoints + [row]);
    assert FindViewpoint(db1.viewpoints, ids.viewpointId) == Some(row);
    assert "image/" + "png" == "image/png";
  }

  /** GetSnapshot fails for a viewpoint without snapshot bytes. */
  lemma SnapshotMeaning(db: Db, viewpointId: string, ok: bool)
    ensures Snapshot(db, viewpointId, ok).Ok? ==>
      var v := FindViewpoint(db.viewpoints, viewpointId);
      ok && v.Some? && Snapshot(db, viewpointId, ok).value.0 == v.value.snapshotData &&
      |v.value.snapshotData| > 0 &&
      (v.value.snapshotType.None? ==> Snapshot(db, viewpointId, ok).value.1 == "image/png")
  {
  }

  /** The update leaves the identity, status, stage, author and creation
      time alone, sets the update time, replaces the title when a
      non-empty one is given and every other field when it is supplied. */
  lemma MergeFields(row: TopicRow, req: CreateTopicRequest, now: int)
    ensures var m := Merge(row, req, now);
      m.id == row.id && m.guid == row.guid && m.topicStatus == row.topicStatus &&
      m.stage == row.stage && m.projectId == row.projectId && m.creatorId == row.creatorId &&
      m.modifiedBy == row.modifiedBy && m.createdAt == row.createdAt && m.updatedAt == now &&
      (req.title != "" ==> m.title == req.title) && (req.title == "" ==> m.title == row.title) &&
      (req.description.None? ==> m.description == row.description) && (req.description.Some? ==> m.description == req.description) &&
      (req.priority.None? ==> m.priority == row.priority) && (req.priority.Some? ==> m.priority == req.priority) &&
      (req.topicType.None? ==> m.topicType == row.topicType) && (req.topicType.Some? ==> m.topicType == req.topicType) &&
      (req.assignedTo.None? ==> m.assignedTo == row.assignedTo) && (req.assignedTo.Some? ==> m.assignedTo == req.assignedTo) &&
      (req.dueDate.None? ==> m.dueDate == row.dueDate) && (req.dueDate.Some? ==> m.dueDate == req.dueDate) &&
      (req.labels.None? ==> m.labels == row.labels) && (req.labels.Some? ==> m.labels == req.labels)
  {
  }

  /** Applying the same update twice is applying it once. */
  lemma MergeIdempotent(row: TopicRow, req: CreateTopicRequest, now: int, later: int)
    ensures Merge(Merge(row, req, now), req, later) == Merge(row, req, later)
  {
  }

  /** UpdateTopic changes the rows with the id and no other. */
  lemma {:induction false} UpdateRowsAt(rows: seq<TopicRow>, topicId: string, req: CreateTopicRequest, now: int, k: nat)
    requires k < |rows|
    ensures UpdateRows(rows, topicId, req, now)[k] == if rows[k].id == topicId then Merge(rows[k], req, now) else rows[k]
    decreases |rows|
  {
    if k < |rows| - 1 {
      UpdateRowsAt(rows[..|rows| - 1], topicId, req, now, k);
    }
  }

  /** After the update, GetTopic finds the merged row; a topic that does
      not exist is still not found, so updating it fails at the fetch. */
  lemma {:induction false} UpdateThenFind(rows: seq<TopicRow>, topicId: string, req: CreateTopicRequest, now: int)
    ensures FindTopic(UpdateRows(rows, topicId, req, now), topicId) ==
      (match FindTopic(rows, topicId)
       case None => None
       case Some(t) => Some(Merge(t, req, now)))
    decreases |rows|
  {
    if |rows| > 0 {
      var u := UpdateRows(rows, topicId, req, now);
      var tail := UpdateRows(rows[1..], topicId, req, now);
      UpdateRowsAt(rows, topicId, req, now, 0);
      assert u[1..] == tail by {
        forall k | 0 <= k < |tail| ensures u[1..][k] == tail[k] {
          UpdateRowsAt(rows, topicId, req, now, k + 1);
          UpdateRowsAt(rows[1..], topicId, req, now, k);
        }
      }
      UpdateThenFind(rows[1..], topicId, req, now);
    }
  }

  /** After DeleteTopic the topic is gone. */
  lemma DeletedTopicGone(db: Db, topicId: string, o: FetchOutcome)
    ensures Fetched(db.(topics := RemoveTopic(db.topics, topicId)), topicId, o).Err?
  {
  }

  /** An imported topic carries its title, description, priority and type
      and every camera, snapshot and component field of its first
      viewpoint only; it assigns nobody, sets no due date or labels and
      links no file version. */
  lemma ImportRequestMeaning(t: Topic)
    ensures var req := ImportRequest(t);
      req.title == t.title && req.description == t.description &&
      req.priority == t.priority && req.topicType == t.topicType &&
      req.assignedTo.None? && req.dueDate.None? && req.labels.None? && req.fileVersionIds == [] &&
      (req.viewpoint.Some? <==> |t.viewpoints| > 0)
    ensures var req := ImportRequest(t);
      req.viewpoint.Some? ==>
        var vp, first := req.viewpoint.value, t.viewpoints[0];
        vp.cameraType == first.cameraType && vp.cameraPosition == first.cameraPosition &&
        vp.cameraDirection == first.cameraDirection && vp.cameraUp == first.cameraUp &&
        vp.fieldOfView == first.fieldOfView && vp.viewWorldScale == first.viewWorldScale &&
        vp.snapshotBase64 == first.snapshotBase64 && vp.components == first.components &&
        vp.clippingPlanes == first.clippingPlanes
  {
  }

  /** ImportBCF counts exactly the topics whose creation succeeds. */
  lemma {:induction false} ImportCounts(db: Db, projectId: string, importerId: string, topics: seq<Topic>,
                                        newIds: nat -> FreshIds, clock: nat -> int, outcomes: nat -> CreateOutcome)
    ensures ImportAll(db, projectId, importerId, topics, newIds, clock, outcomes).1 == CountSucceeded(topics, outcomes)
    ensures ImportAll(db, projectId, importerId, topics, newIds, clock, outcomes).1 <= |topics|
    decreases |topics|
  {
    if |topics| > 0 {
      var n := |topics| - 1;
      ImportCounts(db, projectId, importerId, topics[..n], newIds, clock, outcomes);
      var db1 := ImportAll(db, projectId, importerId, topics[..n], newIds, clock, outcomes).0;
      CreateSuccessIff(db1, projectId, importerId, ImportRequest(topics[n]), newIds(n), clock(n), outcomes(n));
    }
  }

  /** The topic rows an import inserts: one per topic whose insert
      succeeds, in order, each stamped with its own clock reading. */
  function ImportedRows(projectId: string, importerId: string, topics: seq<Topic>,
                        newIds: nat -> FreshIds, clock: nat -> int, outcomes: nat -> CreateOutcome): (r: seq<TopicRow>)
    ensures |r| <= |topics|
    decreases |topics|
  {
    if |topics| == 0 then []
    else
      var n := |topics| - 1;
      ImportedRows(projectId, importerId, topics[..n], newIds, clock, outcomes) +
        (if outcomes(n).insertTopic then [NewTopicRow(projectId, importerId, ImportRequest(topics[n]), newIds(n), clock(n))] else [])
  }

  /** CreateTopic adds the topic row exactly when its insert succeeds. */
  lemma CreatedTopicRows(db: Db, projectId: string, creatorId: string, req: CreateTopicRequest,
                         ids: FreshIds, now: int, o: CreateOutcome)
    ensures Created(db, projectId, creatorId, req, ids, now, o).0.topics ==
            db.topics + (if o.insertTopic then [NewTopicRow(projectId, creatorId, req, ids, now)] else [])
  {
  }

  /** ImportBCF appends the inserted topic rows in archive order, the i-th
      stamped `clock(i)`; with a clock that moves forward, the imported
      topics therefore carry increasing creation times. */
  lemma {:induction false} ImportAllTopicRows(db: Db, projectId: string, importerId: string, topics: seq<Topic>,
                                              newIds: nat -> FreshIds, clock: nat -> int, outcomes: nat -> CreateOutcome)
    ensures ImportAll(db, projectId, importerId, topics, newIds, clock, outcomes).0.topics ==
            db.topics + ImportedRows(projectId, importerId, topics, newIds, clock, outcomes)
    decreases |topics|
  {
    if |topics| > 0 {
      var n := |topics| - 1;
      ImportAllTopicRows(db, projectId, importerId, topics[..n], newIds, clock, outcomes);
      var db1 := ImportAll(db, projectId, importerId, topics[..n], newIds, clock, outcomes).0;
      CreatedTopicRows(db1, projectId, importerId, ImportRequest(topics[n]), newIds(n), clock(n), outcomes(n));
    }
  }

  /** ImportBCF reports a count only for a readable archive, and the count
      is the number of its topics created. */
  lemma ImportedMeaning(db: Db, projectId: string, importerId: string, archive: Bcf.Archive, order: seq<string>,
                        readOk: bool, newIds: nat -> FreshIds, clock: nat -> int, outcomes: nat -> CreateOutcome)
    ensures var r := Imported(db, projectId, importerId, archive, order, readOk, newIds, clock, outcomes).1;
      r.Ok? <==> readOk && Bcf.Parsed(archive, order).Ok?
    ensures var r := Imported(db, projectId, importerId, archive, order, readOk, newIds, clock, outcomes).1;
      r.Ok? ==> r.value == CountSucceeded(Bcf.Parsed(archive, order).value, outcomes)
    ensures archive.Corrupt? ==> Imported(db, projectId, importerId, archive, order, readOk, newIds, clock, outcomes).0 == db
  {
    if readOk && Bcf.Parsed(archive, order).Ok? {
      ImportCounts(db, projectId, importerId, Bcf.Parsed(archive, order).value, newIds, clock, outcomes);
    }
  }

  /** When every fetch succeeds, the export carries every listed topic, in order. */
  lemma FullTopicsAll(db: Db, listed: seq<Topic>, fetches: string -> FetchOutcome)
    requires forall k :: 0 <= k < |listed| ==> fetches(listed[k].id).rowOk && FindTopic(db.topics, listed[k].id).Some?
    ensures SameIds(FullTopics(db, listed, fetches), listed)
  {
    var fetch := id => Fetched(db, id, fetches(id));
    forall k | 0 <= k < |listed| ensures fetch(listed[k].id).Ok? && fetch(listed[k].id).value.id == listed[k].id {
      FetchedId(db, listed[k].id, fetches(listed[k].id));
    }
    CollectAll(listed, fetch);
  }

  /** A fetch loop whose every fetch succeeds under the listed id keeps
      every listed topic, in order. */
  lemma {:induction false} CollectAll(listed: seq<Topic>, fetch: string -> Result<Topic, string>)
    requires forall k :: 0 <= k < |listed| ==> fetch(listed[k].id).Ok? && fetch(listed[k].id).value.id == listed[k].id
    ensures SameIds(Collect(listed, fetch), listed)
    decreases |listed|
  {
    if |listed| > 0 {
      var n := |listed| - 1;
      CollectAll(listed[..n], fetch);
      SameIdsSnoc(Collect(listed[..n], fetch), listed[..n], fetch(listed[n].id).value, listed[n]);
      assert listed[..n] + [listed[n]] == listed;
    }
  }

  /** Two topic lists of the same length whose topics carry the same ids, in order. */
  predicate SameIds(a: seq<Topic>, b: seq<Topic>) {
    |a| == |b| && forall k :: 0 <= k < |a| ==> a[k].id == b[k].id
  }

  lemma SameIdsSnoc(a: seq<Topic>, b: seq<Topic>, x: Topic, y: Topic)
    requires SameIds(a, b) && x.id == y.id
    ensures SameIds(a + [x], b + [y])
  {
  }

  /** A topic that exists is fetched under its own id. */
  lemma FetchedId(db: Db, topicId: string, o: FetchOutcome)
    requires o.rowOk && FindTopic(db.topics, topicId).Some?
    ensures Fetched(db, topicId, o).Ok? && Fetched(db, topicId, o).value.id == topicId
  {
  }

  /** ExportBCF writes every topic of the project when all fetches succeed. */
  lemma ExportCarriesEveryTopic(db: Db, projectId: string, previewOk: nat -> bool, fetches: string -> FetchOutcome)
    requires forall t :: t in db.topics ==> fetches(t.id).rowOk
    ensures var listed := Listed(db, projectId, TopicFilters("", "", ""), true, previewOk).value;
      ExportedArchive(db, projectId, true, previewOk, fetches) == Ok(Bcf.Exported(FullTopics(db, listed, fetches))) &&
      SameIds(FullTopics(db, listed, fetches), listed) &&
      |listed| == |FilterRows(db.topics, projectId, TopicFilters("", "", ""))|
  {
    var f := TopicFilters("", "", "");
    var rows := ListedRows(db.topics, projectId, f);
    ListedRowsMeaning(db.topics, projectId, f);
    ListedMeaning(db, projectId, f, previewOk);
    var listed := Listed(db, projectId, f, true, previewOk).value;
    forall k | 0 <= k < |listed| ensures fetches(listed[k].id).rowOk && FindTopic(db.topics, listed[k].id).Some? {
      TopicsFromRowsAt(db, rows, previewOk, k);
      assert rows[k] in rows;
    }
    FullTopicsAll(db, listed, fetches);
  }
}
