/** Loading a channel from its file, after a clean stop or after a crash. */
module ChatRecovery {
  import opened ChatRecords
  import opened ChatInvariants
  import opened ChatLog
  import opened ChatStore

  /** loadChannel on a file some store wrote and a crash cut to n bytes (or did
      not cut): the live channel is consistent with what is left of the log, the
      file holds exactly its lines, and after an uncut restart the channel is the
      one that was running. */
  method LoadChannel(c: Codec, file: LogFile, ghost log: seq<Record>, ghost n: nat) returns (ch: Channel)
    requires Faithful(c) && StoreLog(log) && n <= |Serialize(c, log)| && file.data == Serialize(c, log)[..n]
    modifies file
    ensures fresh(ch) && fresh(ch.msgs) && ch.Consistent() && WellKept(ch.model)
    ensures ch.log == log[..WholeLines(c, log, n)] && ch.model == Replay(ch.log)
    ensures file.data == Serialize(c, ch.log) && file.backup == old(file.backup)
    ensures n == |Serialize(c, log)| ==> ch.log == log
  {
    hide Parse, Replay, StoreLog, WellKept, Serialize, WholeLines;
    CrashRecovery(c, log, n, Other);
    CutKeepsLines(c, log, n);
    CutParses(c, log, n);
    assert file.data[..|Serialize(c, log[..WholeLines(c, log, n)])|] == Serialize(c, log[..WholeLines(c, log, n)]);
    var r := file.ReplayLog(c, true);
    ch := new Channel.Load(r.value);
  }

  /** Stop and start again, nothing lost: same messages, same indexes, same next
      number, same log; and every object is a new one. */
  method Restart(c: Codec, ch: Channel, file: LogFile) returns (again: Channel)
    requires Faithful(c) && ch.Consistent() && file.data == Serialize(c, ch.log)
    modifies file
    ensures fresh(again) && fresh(again.msgs) && again.Consistent() && again.model == ch.model && again.log == ch.log
    ensures file.data == old(file.data)
  {
    assert file.data[..|file.data|] == file.data;
    again := LoadChannel(c, file, ch.log, |Serialize(c, ch.log)|);
  }
}
