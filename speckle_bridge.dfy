/** The conversion of uploaded IFC files into Speckle models
    (upload/speckle_bridge.go).  One row of `arca_speckle_mapping` per file
    version moves through pending, processing, and then ready or error.

    The remote GraphQL and upload calls are replaced by the replies they
    produced; the ticker and the ten-minute timeout by the number of ticks
    that fire before the timeout and the status report each tick saw.  Each
    write takes the clock reading as a parameter, and whether a status
    update after the first insert reached the database is a parameter too:
    the source ignores the outcome of those updates. */
module SpeckleBridge {
  import opened Wrappers

  datatype MappingStatus = Pending | Processing | Ready | Error

  /** One `arca_speckle_mapping` row, keyed by file version id. */
  datatype Mapping = Mapping(
    modelId: string,
    status: MappingStatus,
    objectId: string,
    errorMessage: string,
    createdAt: int,
    updatedAt: int)

  type Rows = map<string, Mapping>

  // ---------------------------------------------------------------------
  // The row updates

  /** The insert with ON CONFLICT: a new row is pending with an empty model
      id; an existing row is set back to pending and keeps everything else. */
  function Upsert(rows: Rows, fv: string, now: int): (r: Rows)
    ensures fv in r && r[fv].status == Pending && r[fv].updatedAt == now
    ensures fv !in rows ==> r[fv].modelId == "" && r[fv].createdAt == now
    ensures fv in rows ==> r[fv] == rows[fv].(status := Pending, updatedAt := now)
    ensures forall k :: k != fv ==> (k in r <==> k in rows) && (k in rows ==> r[k] == rows[k])
  {
    if fv in rows then rows[fv := rows[fv].(status := Pending, updatedAt := now)]
    else rows[fv := Mapping("", Pending, "", "", now, now)]
  }

  /** Each UPDATE ... WHERE file_version_id = fv changes that row if it
      exists and nothing otherwise. */
  function SetProcessing(rows: Rows, fv: string, modelId: string, now: int): Rows {
    if fv in rows then rows[fv := rows[fv].(modelId := modelId, status := Processing, updatedAt := now)]
    else rows
  }

  /** `updateMappingError`. */
  function SetError(rows: Rows, fv: string, msg: string, now: int): Rows {
    if fv in rows then rows[fv := rows[fv].(status := Error, errorMessage := msg, updatedAt := now)]
    else rows
  }

  function SetReady(rows: Rows, fv: string, objectId: string, now: int): Rows {
    if fv in rows then rows[fv := rows[fv].(status := Ready, objectId := objectId, updatedAt := now)]
    else rows
  }

  /** An update whose error is ignored: it takes effect only when saved. */
  function Saved(saved: bool, before: Rows, after: Rows): Rows {
    if saved then after else before
  }

  // ---------------------------------------------------------------------
  // createSpeckleModel and checkImportStatus

  /** How the GraphQL call that creates a model ended. */
  datatype ModelReply =
    | ModelTransportFailed(message: string)
    | ModelUnparsable(message: string)
    | ModelParsed(errors: seq<string>, id: string)

  /** `createSpeckleModel`'s handling of the reply: the first GraphQL error
      if there is any, otherwise the id of the created model. */
  function CreateSpeckleModel(reply: ModelReply): (r: Result<string, string>)
    ensures r.Ok? <==> reply.ModelParsed? && |reply.errors| == 0
    ensures r.Ok? ==> r.value == reply.id
    ensures reply.ModelParsed? && |reply.errors| > 0 ==> r == Err("graphql error: " + reply.errors[0])
    ensures reply.ModelUnparsable? ==> r == Err("parse response: " + reply.message)
  {
    match reply
    case ModelTransportFailed(msg) => Err(msg)
    case ModelUnparsable(msg) => Err("parse response: " + msg)
    case ModelParsed(errors, id) =>
      if |errors| > 0 then Err("graphql error: " + errors[0]) else Ok(id)
  }

  /** One item of the model's version list. */
  datatype VersionItem = VersionItem(id: string, referencedObject: string)

  /** How the status query ended.  A body that does not parse leaves the
      item list empty, because the source ignores that error. */
  datatype VersionsReply =
    | VersionsTransportFailed
    | VersionsAnswer(items: seq<VersionItem>)

  /** The status, object id and error flag `checkImportStatus` returns. */
  datatype StatusReport = StatusReport(status: string, objectId: string, failed: bool)

  /** `checkImportStatus`: ready with the first version's object once the
      model has a version, otherwise processing; a failed call is an error
      result.  It never reports "error". */
  function CheckImportStatus(reply: VersionsReply): (r: StatusReport)
    ensures r.status != "error"
    ensures r.failed <==> reply.VersionsTransportFailed?
    ensures !r.failed ==> (r.status == "ready" <==> |reply.items| > 0)
    ensures !r.failed && |reply.items| > 0 ==> r.objectId == reply.items[0].referencedObject
    ensures !r.failed && |reply.items| == 0 ==> r.status == "processing" && r.objectId == ""
  {
    match reply
    case VersionsTransportFailed => StatusReport("", "", true)
    case VersionsAnswer(items) =>
      if |items| > 0 then StatusReport("ready", items[0].referencedObject, false)
      else StatusReport("processing", "", false)
  }

  // ---------------------------------------------------------------------
  // TriggerImport

  /** The error `TriggerImport` returns. */
  datatype TriggerError =
    | CreateMapping
    | CreateModel(message: string)
    | UploadToSpeckle(message: string)

  /** What the call returns: an error, or the model whose import is then
      polled. */
  datatype TriggerResult = TriggerResult(error: Option<TriggerError>, poll: Option<string>)

  /** The remote and database outcomes one `TriggerImport` call meets. */
  datatype TriggerOracle = TriggerOracle(
    insertOk: bool,
    model: ModelReply,
    upload: Option<string>,
    processingSaved: bool,
    errorSaved: bool)

  /** The clock readings of one `TriggerImport` call: the upsert, the
      processing update, and the error update when there is one. */
  datatype TriggerTimes = TriggerTimes(pendingAt: int, processingAt: int, failedAt: int)

  /** What `TriggerImport` does to the rows and returns. */
  function Trigger(rows: Rows, fv: string, times: TriggerTimes, o: TriggerOracle): (Rows, TriggerResult) {
    if !o.insertOk then (rows, TriggerResult(Some(CreateMapping), None))
    else
      var pending := Upsert(rows, fv, times.pendingAt);
      match CreateSpeckleModel(o.model)
      case Err(msg) =>
        (Saved(o.errorSaved, pending, SetError(pending, fv, msg, times.failedAt)),
         TriggerResult(Some(CreateModel(msg)), None))
      case Ok(modelId) =>
        var processing := Saved(o.processingSaved, pending, SetProcessing(pending, fv, modelId, times.processingAt));
        match o.upload
        case Some(msg) =>
          (Saved(o.errorSaved, processing, SetError(processing, fv, msg, times.failedAt)),
           TriggerResult(Some(UploadToSpeckle(msg)), None))
        case None => (processing, TriggerResult(None, Some(modelId)))
  }

  /** A failed insert changes nothing and starts nothing. */
  lemma InsertFailureStops(rows: Rows, fv: string, times: TriggerTimes, o: TriggerOracle)
    requires !o.insertOk
    ensures Trigger(rows, fv, times, o).0 == rows
    ensures Trigger(rows, fv, times, o).1 == TriggerResult(Some(CreateMapping), None)
  {
  }

  /** A failed model creation leaves the row in error with that message,
      returns the error and starts no polling. */
  lemma ModelFailureMarksError(rows: Rows, fv: string, times: TriggerTimes, o: TriggerOracle)
    requires o.insertOk && o.errorSaved
    requires CreateSpeckleModel(o.model).Err?
    ensures var (r, res) := Trigger(rows, fv, times, o);
      fv in r && r[fv].status == Error && r[fv].errorMessage == CreateSpeckleModel(o.model).error &&
      r[fv].updatedAt == times.failedAt &&
      res.error == Some(CreateModel(CreateSpeckleModel(o.model).error)) && res.poll.None?
  {
  }

  /** A created model is recorded and the row is processing before the
      upload is tried; a successful upload starts polling for that model. */
  lemma ModelRecordedBeforeUpload(rows: Rows, fv: string, times: TriggerTimes, o: TriggerOracle)
    requires o.insertOk && o.processingSaved
    requires CreateSpeckleModel(o.model).Ok?
    ensures var (r, res) := Trigger(rows, fv, times, o);
      fv in r && r[fv].modelId == CreateSpeckleModel(o.model).value &&
      (o.upload.None? ==> r[fv].status == Processing && r[fv].updatedAt == times.processingAt &&
                          res == TriggerResult(None, Some(r[fv].modelId)))
  {
  }

  /** A failed upload leaves the row in error and starts no polling;
      polling starts only after a successful upload. */
  lemma UploadFailureMarksError(rows: Rows, fv: string, times: TriggerTimes, o: TriggerOracle)
    requires o.insertOk && o.errorSaved && o.upload.Some?
    ensures var (r, res) := Trigger(rows, fv, times, o);
      res.poll.None? && res.error.Some? &&
      (CreateSpeckleModel(o.model).Ok? ==>
        fv in r && r[fv].status == Error && r[fv].errorMessage == o.upload.value)
  {
  }

  /** Polling starts exactly when everything succeeded. */
  lemma PollOnlyAfterSuccess(rows: Rows, fv: string, times: TriggerTimes, o: TriggerOracle)
    ensures Trigger(rows, fv, times, o).1.poll.Some? <==>
            o.insertOk && CreateSpeckleModel(o.model).Ok? && o.upload.None?
    ensures Trigger(rows, fv, times, o).1.poll.Some? <==> Trigger(rows, fv, times, o).1.error.None?
  {
  }

  /** The result does not depend on whether the later status updates
      reached the database. */
  lemma UpdateErrorsIgnored(rows: Rows, fv: string, times: TriggerTimes, o: TriggerOracle, p: bool, e: bool)
    ensures Trigger(rows, fv, times, o).1 == Trigger(rows, fv, times, o.(processingSaved := p, errorSaved := e)).1
  {
  }

  /** A trigger writes only the mapping of its own file version. */
  lemma TriggerTouchesOnlyItsRow(rows: Rows, fv: string, times: TriggerTimes, o: TriggerOracle)
    ensures forall k :: k != fv ==>
      (k in Trigger(rows, fv, times, o).0 <==> k in rows) &&
      (k in rows ==> Trigger(rows, fv, times, o).0[k] == rows[k])
  {
    var after := Trigger(rows, fv, times, o).0;
    forall k | k != fv
      ensures (k in after <==> k in rows) && (k in rows ==> after[k] == rows[k])
    {
    }
  }

  /** An existing mapping in any state, error included, is reset to pending
      by a new trigger; its model id, object id and message are kept. */
  lemma RetriggerResets(rows: Rows, fv: string, now: int)
    requires fv in rows
    ensures Upsert(rows, fv, now)[fv].status == Pending
    ensures Upsert(rows, fv, now)[fv].modelId == rows[fv].modelId
    ensures Upsert(rows, fv, now)[fv].errorMessage == rows[fv].errorMessage
    ensures Upsert(rows, fv, now)[fv].createdAt == rows[fv].createdAt
  {
  }

  // ---------------------------------------------------------------------
  // pollImportStatus

  /** The single terminal write a poll ends with. */
  datatype Terminal =
    | BecameReady(objectId: string)
    | ImportFailed
    | TimedOut

  const ImportFailedMessage: string := "speckle import failed"
  const TimedOutMessage: string := "import timed out"

  /** Ten minutes of five-second ticks. */
  const MaxTicks: nat := 120

  /** The outcome of the ticks from `i` on: failed checks are skipped,
      "processing" waits for the next tick, "ready" and "error" end the
      poll, and running out of ticks is the timeout. */
  function PollFrom(reports: nat -> StatusReport, ticks: nat, i: nat): Terminal
    decreases ticks - i
  {
    if i >= ticks then TimedOut
    else
      var r := reports(i);
      if r.failed then PollFrom(reports, ticks, i + 1)
      else if r.status == "ready" then BecameReady(r.objectId)
      else if r.status == "error" then ImportFailed
      else PollFrom(reports, ticks, i + 1)
  }

  /** The write a terminal outcome makes. */
  function ApplyTerminal(rows: Rows, fv: string, t: Terminal, now: int): Rows {
    match t
    case BecameReady(obj) => SetReady(rows, fv, obj, now)
    case ImportFailed => SetError(rows, fv, ImportFailedMessage, now)
    case TimedOut => SetError(rows, fv, TimedOutMessage, now)
  }

  /** A poll ends ready with the object of the first tick whose check
      succeeded with "ready", provided no earlier successful check said
      "error"; otherwise it times out. */
  lemma {:induction false} PollReadyAtFirstReady(reports: nat -> StatusReport, ticks: nat, i: nat, k: nat)
    requires i <= k < ticks
    requires !reports(k).failed && reports(k).status == "ready"
    requires forall j :: i <= j < k ==> reports(j).failed || (reports(j).status != "ready" && reports(j).status != "error")
    ensures PollFrom(reports, ticks, i) == BecameReady(reports(k).objectId)
    decreases k - i
  {
    if i < k {
      PollReadyAtFirstReady(reports, ticks, i + 1, k);
    }
  }

  lemma {:induction false} PollTimesOut(reports: nat -> StatusReport, ticks: nat, i: nat)
    requires forall j :: i <= j < ticks ==> reports(j).failed || (reports(j).status != "ready" && reports(j).status != "error")
    ensures PollFrom(reports, ticks, i) == TimedOut
    decreases ticks - i
  {
    if i < ticks {
      PollTimesOut(reports, ticks, i + 1);
    }
  }

  /** With the status reports `checkImportStatus` produces, a poll never
      ends in "speckle import failed": that branch cannot be taken. */
  lemma {:induction false} ImportFailedUnreachable(replies: nat -> VersionsReply, reports: nat -> StatusReport, ticks: nat, i: nat)
    requires forall j :: reports(j) == CheckImportStatus(replies(j))
    ensures PollFrom(reports, ticks, i) != ImportFailed
    decreases ticks - i
  {
    if i < ticks {
      assert reports(i).status != "error";
      ImportFailedUnreachable(replies, reports, ticks, i + 1);
    }
  }

  // ---------------------------------------------------------------------
  // The bridge and its table

  class Bridge {
    var rows: Rows

    constructor ()
      ensures rows == map[]
    {
      rows := map[];
    }

    /** `updateMappingError`, whose own database error is dropped. */
    method UpdateMappingError(fv: string, msg: string, now: int, saved: bool)
      modifies this
      ensures rows == Saved(saved, old(rows), SetError(old(rows), fv, msg, now))
    {
      if saved {
        rows := SetError(rows, fv, msg, now);
      }
    }

    /** `TriggerImport`: the upsert, the model, the upload; returns the
      model to poll on success. */
    method TriggerImport(fv: string, objectKey: string, times: TriggerTimes, o: TriggerOracle)
      returns (error: Option<TriggerError>, poll: Option<string>)
      modifies this
      ensures (rows, TriggerResult(error, poll)) == Trigger(old(rows), fv, times, o)
    {
      if !o.insertOk {
        return Some(CreateMapping), None;
      }
      rows := Upsert(rows, fv, times.pendingAt);
      var created := CreateSpeckleModel(o.model);
      if created.Err? {
        UpdateMappingError(fv, created.error, times.failedAt, o.errorSaved);
        return Some(CreateModel(created.error)), None;
      }
      var modelId := created.value;
      if o.processingSaved {
        rows := SetProcessing(rows, fv, modelId, times.processingAt);
      }
      if o.upload.Some? {
        UpdateMappingError(fv, o.upload.value, times.failedAt, o.errorSaved);
        return Some(UploadToSpeckle(o.upload.value)), None;
      }
      return None, Some(modelId);
    }

    /** `pollImportStatus`: one status report per tick until a terminal
      write; `ticks` ticks fire before the timeout. */
    method PollImportStatus(fv: string, reports: nat -> StatusReport, ticks: nat, now: int, saved: bool)
      returns (outcome: Terminal)
      requires ticks <= MaxTicks
      modifies this
      ensures outcome == PollFrom(reports, ticks, 0)
      ensures rows == Saved(saved, old(rows), ApplyTerminal(old(rows), fv, outcome, now))
    {
      var i := 0;
      while i < ticks
        invariant 0 <= i <= ticks
        invariant PollFrom(reports, ticks, i) == PollFrom(reports, ticks, 0)
        invariant rows == old(rows)
        decreases ticks - i
      {
        var report := reports(i);
        if report.failed {
          i := i + 1;
          continue;
        }
        if report.status == "ready" {
          if saved {
            rows := SetReady(rows, fv, report.objectId, now);
          }
          return BecameReady(report.objectId);
        }
        if report.status == "error" {
          UpdateMappingError(fv, ImportFailedMessage, now, saved);
          return ImportFailed;
        }
        i := i + 1;
      }
      UpdateMappingError(fv, TimedOutMessage, now, saved);
      return TimedOut;
    }
  }
}
