/** Deleting the worker tasks of a download task: the command, its validator, and
    the handler that removes every worker-task row of that download task from the
    database, failing when there is none. */
module PlexDownloads {
  import opened Sequences

  /** A row of the worker-task table; the byte range a worker downloads. */
  datatype DownloadWorkerTask = DownloadWorkerTask(
    id: int,
    downloadTaskId: int,
    startByte: int,
    endByte: int,
    bytesReceived: int)

  datatype DeleteDownloadWorkerTasksCommand = DeleteDownloadWorkerTasksCommand(downloadTaskId: int)

  /** A rule of the validator that the command breaks. */
  datatype ValidationFailure = MustBeGreaterThan(propertyName: string, bound: int)

  const DownloadTaskIdProperty: string := "DownloadTaskId"

  /** The validator: the download task id must be greater than 0. */
  function Validate(command: DeleteDownloadWorkerTasksCommand): (errors: seq<ValidationFailure>)
    ensures errors == [] <==> command.downloadTaskId > 0
    ensures errors != [] ==> errors == [MustBeGreaterThan(DownloadTaskIdProperty, 0)]
  {
    if command.downloadTaskId > 0 then [] else [MustBeGreaterThan(DownloadTaskIdProperty, 0)]
  }

  datatype DeleteError = NoWorkerTasksFound(downloadTaskId: int)

  datatype HandlerResult = Ok | Fail(error: DeleteError)

  function BelongsTo(downloadTaskId: int): DownloadWorkerTask -> bool
  {
    (w: DownloadWorkerTask) => w.downloadTaskId == downloadTaskId
  }

  function NotIn(removed: seq<DownloadWorkerTask>): DownloadWorkerTask -> bool
  {
    (w: DownloadWorkerTask) => w !in removed
  }

  function BelongsElsewhere(downloadTaskId: int): DownloadWorkerTask -> bool
  {
    (w: DownloadWorkerTask) => w.downloadTaskId != downloadTaskId
  }

  /** The rows of the download task, in table order (the `Where` query). */
  function Matching(rows: seq<DownloadWorkerTask>, downloadTaskId: int): (r: seq<DownloadWorkerTask>)
    ensures forall w :: w in r <==> w in rows && w.downloadTaskId == downloadTaskId
  {
    Filter(rows, BelongsTo(downloadTaskId))
  }

  /** The rows of every other download task, in table order. */
  function Remaining(rows: seq<DownloadWorkerTask>, downloadTaskId: int): (r: seq<DownloadWorkerTask>)
    ensures forall w :: w in r <==> w in rows && w.downloadTaskId != downloadTaskId
  {
    Filter(rows, BelongsElsewhere(downloadTaskId))
  }

  /** The table after removing the given rows. */
  function Without(rows: seq<DownloadWorkerTask>, removed: seq<DownloadWorkerTask>): (r: seq<DownloadWorkerTask>)
    ensures forall w :: w in r <==> w in rows && w !in removed
  {
    Filter(rows, NotIn(removed))
  }

  /** Removing the rows the query found leaves exactly the rows of the other download
      tasks, in their order. */
  lemma RemovingMatchesLeavesRemaining(rows: seq<DownloadWorkerTask>, downloadTaskId: int)
    ensures Without(rows, Matching(rows, downloadTaskId)) == Remaining(rows, downloadTaskId)
  {
    var found := Matching(rows, downloadTaskId);
    FilterCongruence(rows, NotIn(found), BelongsElsewhere(downloadTaskId));
  }

  /** Every row is either found by the query or remains, never both. */
  lemma MatchingAndRemainingPartitionRows(rows: seq<DownloadWorkerTask>, downloadTaskId: int)
    ensures multiset(rows) == multiset(Matching(rows, downloadTaskId)) + multiset(Remaining(rows, downloadTaskId))
    ensures |rows| == |Matching(rows, downloadTaskId)| + |Remaining(rows, downloadTaskId)|
  {
    FilterPartition(rows, BelongsTo(downloadTaskId), BelongsElsewhere(downloadTaskId));
  }

  /** Deleting the rows of one download task does not touch those of another. */
  lemma {:induction false} OtherDownloadTasksKeepTheirRows(rows: seq<DownloadWorkerTask>, downloadTaskId: int, other: int)
    requires other != downloadTaskId
    ensures Matching(Remaining(rows, downloadTaskId), other) == Matching(rows, other)
  {
    if rows != [] {
      var head := if rows[0].downloadTaskId != downloadTaskId then [rows[0]] else [];
      var tail := Remaining(rows[1..], downloadTaskId);
      assert Remaining(rows, downloadTaskId) == head + tail;
      FilterAppend(head, tail, BelongsTo(other));
      OtherDownloadTasksKeepTheirRows(rows[1..], downloadTaskId, other);
      assert Matching(head, other) == if rows[0].downloadTaskId == other then [rows[0]] else [];
    }
  }

  /** After the rows of a download task are removed, none of its rows are left. */
  lemma NothingLeftToDelete(rows: seq<DownloadWorkerTask>, downloadTaskId: int)
    ensures Matching(Remaining(rows, downloadTaskId), downloadTaskId) == []
  {
    var left := Remaining(rows, downloadTaskId);
    assert forall i :: 0 <= i < |left| ==> left[i] in left;
    FilterNone(left, BelongsTo(downloadTaskId));
  }

  /** When every stored row belongs to a download task with a positive key, a command
      the validator rejects would find no rows. */
  lemma RejectedCommandsMatchNoRows(rows: seq<DownloadWorkerTask>, command: DeleteDownloadWorkerTasksCommand)
    requires forall i :: 0 <= i < |rows| ==> rows[i].downloadTaskId > 0
    requires Validate(command) != []
    ensures Matching(rows, command.downloadTaskId) == []
  {
    FilterNone(rows, BelongsTo(command.downloadTaskId));
  }

  /** The database context, reduced to its worker-task table. */
  class PlexRipperDbContext {
    var downloadWorkerTasks: seq<DownloadWorkerTask>

    constructor (rows: seq<DownloadWorkerTask>)
      ensures downloadWorkerTasks == rows
    {
      downloadWorkerTasks := rows;
    }

    /** The worker tasks of one download task, in table order. */
    method WorkerTasksOf(downloadTaskId: int) returns (r: seq<DownloadWorkerTask>)
      ensures r == Matching(downloadWorkerTasks, downloadTaskId)
    {
      r := Filter(downloadWorkerTasks, BelongsTo(downloadTaskId));
    }

    /** Remove the given rows and save. */
    method RemoveRange(removed: seq<DownloadWorkerTask>)
      modifies this
      ensures downloadWorkerTasks == Without(old(downloadWorkerTasks), removed)
    {
      downloadWorkerTasks := Filter(downloadWorkerTasks, NotIn(removed));
    }
  }

  class DeleteDownloadWorkerTasksCommandHandler {
    const dbContext: PlexRipperDbContext

    constructor (dbContext: PlexRipperDbContext)
      ensures this.dbContext == dbContext
    {
      this.dbContext := dbContext;
    }

    /** Fails, changing nothing, when the download task has no worker tasks; otherwise
        removes exactly its worker tasks and keeps every other row in order. */
    method Handle(command: DeleteDownloadWorkerTasksCommand) returns (r: HandlerResult)
      modifies dbContext
      ensures r.Fail? <==> Matching(old(dbContext.downloadWorkerTasks), command.downloadTaskId) == []
      ensures r.Fail? ==>
        r.error == NoWorkerTasksFound(command.downloadTaskId) &&
        dbContext.downloadWorkerTasks == old(dbContext.downloadWorkerTasks)
      ensures r.Ok? ==>
        dbContext.downloadWorkerTasks == Remaining(old(dbContext.downloadWorkerTasks), command.downloadTaskId)
    {
      var downloadWorkerTasks := dbContext.WorkerTasksOf(command.downloadTaskId);
      if |downloadWorkerTasks| == 0 {
        return Fail(NoWorkerTasksFound(command.downloadTaskId));
      }
      RemovingMatchesLeavesRemaining(dbContext.downloadWorkerTasks, command.downloadTaskId);
      dbContext.RemoveRange(downloadWorkerTasks);
      return Ok;
    }
  }
}
