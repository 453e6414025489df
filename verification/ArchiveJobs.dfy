/** server/archives.go: one archive job's status machine, as an object and as the
    values its lock-protected sections compute. */
module ArchiveJobs {
  import opened Common

  datatype Status = Queued | Preparing | Ready | Failed | Canceled {
    predicate Terminal() { Ready? || Failed? || Canceled? }
  }

  datatype JobId = JobId(token: string)

  /** The fields the job's mutex guards. hears: a cancel function is installed. */
  datatype JobV = JobV(status: Status, errMsg: string, errCode: string, url: string, finishedAt: int, hears: bool)

  const QUEUED := JobV(Queued, "", "", "", 0, false)

  function SetStatusV(j: JobV, st: Status): JobV {
    if j.status.Terminal() then j else j.(status := st)
  }

  function FinishV(j: JobV, st: Status, errMsg: string, errCode: string, url: string, now: int): JobV {
    if j.status.Terminal() then j
    else j.(status := st, errMsg := errMsg, errCode := errCode, url := url, finishedAt := now)
  }

  function CancelV(j: JobV, now: int): JobV {
    if j.status.Terminal() then j else j.(status := Canceled, finishedAt := now)
  }

  /** The run's context: canceling it is all anyone does to it. */
  class Context {
    var done: bool

    constructor ()
      ensures !done
    {
      done := false;
    }

    method Cancel()
      modifies this
      ensures done
    {
      done := true;
    }
  }

  class ArchiveJob {
    const id: JobId
    const session: string
    const item: string
    const version: string
    var status: Status
    var errMsg: string
    var errCode: string
    var url: string
    var finishedAt: int
    var cancelFn: Option<Context>

    constructor (id: JobId, session: string, item: string, version: string)
      ensures this.id == id && this.session == session && this.item == item && this.version == version
      ensures View() == QUEUED
    {
      this.id, this.session, this.item, this.version := id, session, item, version;
      status, errMsg, errCode, url, finishedAt, cancelFn := Queued, "", "", "", 0, None;
    }

    function View(): JobV
      reads this
    {
      JobV(status, errMsg, errCode, url, finishedAt, cancelFn.Some?)
    }

    /** setCancel: a job canceled before it was scheduled cancels its context at once. */
    method SetCancel(ctx: Context)
      modifies this`cancelFn, ctx
      ensures cancelFn == Some(ctx) && View() == old(View()).(hears := true)
      ensures ctx.done == (old(ctx.done) || status == Canceled)
    {
      var canceled := status == Canceled;
      cancelFn := Some(ctx);
      if canceled { ctx.Cancel(); }
    }

    method SetStatus(st: Status)
      modifies this
      ensures View() == SetStatusV(old(View()), st) && cancelFn == old(cancelFn)
      ensures status == (if old(status) in {Ready, Failed, Canceled} then old(status) else st)
      ensures errMsg == old(errMsg) && errCode == old(errCode) && url == old(url) && finishedAt == old(finishedAt)
    {
      if !status.Terminal() { status := st; }
    }

    /** finish: the first writer wins, and is told so. */
    method Finish(st: Status, errMsg: string, errCode: string, url: string, now: int) returns (settled: bool)
      modifies this
      ensures View() == FinishV(old(View()), st, errMsg, errCode, url, now) && cancelFn == old(cancelFn)
      ensures settled <==> old(status) !in {Ready, Failed, Canceled}
      ensures if settled then status == st && this.errMsg == errMsg && this.errCode == errCode && this.url == url
                              && finishedAt == now
              else View() == old(View())
    {
      if status.Terminal() { return false; }
      status := st;
      this.errMsg, this.errCode, this.url, finishedAt := errMsg, errCode, url, now;
      settled := true;
    }

    method Cancel(now: int)
      modifies this, match cancelFn case Some(ctx) => {ctx} case None => {}
      ensures View() == CancelV(old(View()), now) && cancelFn == old(cancelFn)
      ensures cancelFn.Some? ==> cancelFn.value.done
      ensures errMsg == old(errMsg) && errCode == old(errCode) && url == old(url)
      ensures if old(status) in {Ready, Failed, Canceled} then status == old(status) && finishedAt == old(finishedAt)
              else status == Canceled && finishedAt == now
    {
      var fn := cancelFn;
      if !status.Terminal() { status, finishedAt := Canceled, now; }
      if fn.Some? { fn.value.Cancel(); }
    }
  }
}
