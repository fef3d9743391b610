/** The file backend and the kernel backend driven by the same commands. */
module Backends {
  import opened Wrappers
  import BanSpec
  import BanFile
  import Guard

  /** One wrapper call: the command line and the wall clock in ns. */
  datatype Call = Call(v: BanFile.Verb, wallNs: nat)

  /** What the file backend is asked to record: whole seconds. */
  function ForFile(c: Call): BanSpec.Command {
    BanFile.Requested(c.v, c.wallNs / 1_000_000_000)
  }

  /** The same call on the monotonic clock, which trails the wall clock by a
      constant. */
  function ForKernel(c: Call, lag: nat): Guard.Call
    requires lag <= c.wallNs
  {
    match c.v
    case BanFor(ip, ttl) => Guard.Call(Guard.BanCmd(ip, ttl), c.wallNs - lag, c.wallNs / 1_000_000_000)
    case Lift(ip) => Guard.Call(Guard.UnbanCmd(ip), c.wallNs - lag, c.wallNs / 1_000_000_000)
  }

  /** The banlist after the calls, each replacing it by the list it computes
      from the file it finds, expired lines dropped. */
  function FileAfter(calls: seq<Call>): BanFile.File {
    if calls == [] then None
    else
      var last := calls[|calls| - 1];
      Some(BanFile.NewList(FileAfter(calls[..|calls| - 1]), last.wallNs / 1_000_000_000, ForFile(last)))
  }

  /** What those calls mean to the file backend. */
  function FileBans(calls: seq<Call>): map<string, int> {
    if calls == [] then map[]
    else BanSpec.Apply(FileBans(calls[..|calls| - 1]), ForFile(calls[|calls| - 1]))
  }

  /** The wall clock runs forward, up to `wallNs`. */
  predicate Ordered(calls: seq<Call>, wallNs: nat) {
    && (forall i :: 0 <= i < |calls| ==> calls[i].wallNs <= wallNs)
    && (forall i, j :: 0 <= i <= j < |calls| ==> calls[i].wallNs <= calls[j].wallNs)
  }

  /** Through all its rewriting and pruning the file says what they mean. */
  lemma {:induction false} FileAgrees(calls: seq<Call>, wallNs: nat)
    requires Ordered(calls, wallNs)
    ensures BanFile.Agrees(BanFile.Lines(FileAfter(calls)), FileBans(calls), wallNs / 1_000_000_000)
  {
    hide BanFile.Agrees, BanFile.NewList;
    if calls == [] {
      BanFile.TableAgrees([], wallNs / 1_000_000_000);
    } else {
      var before, last := calls[..|calls| - 1], calls[|calls| - 1];
      var second := last.wallNs / 1_000_000_000;
      FileAgrees(before, last.wallNs);
      BanFile.NewListAgrees(FileAfter(before), second, second, ForFile(last), FileBans(before));
      BanFile.AgreesLater(BanFile.Lines(FileAfter(calls)), FileBans(calls), second, wallNs / 1_000_000_000);
    }
  }

  /** The wrapper runs the guard on every call. */
  function KernelCalls(calls: seq<Call>, lag: nat): (r: seq<Guard.Call>)
    requires forall i :: 0 <= i < |calls| ==> lag <= calls[i].wallNs
    ensures |r| == |calls|
  {
    if calls == [] then []
    else KernelCalls(calls[..|calls| - 1], lag) + [ForKernel(calls[|calls| - 1], lag)]
  }

  /** No ban command of the history met a full map. */
  predicate AllInserted(capacity: nat, calls: seq<Guard.Call>) {
    calls == [] ||
      (AllInserted(capacity, calls[..|calls| - 1])
       && Guard.Succeeds(Guard.Maps(capacity, calls[..|calls| - 1]).0, capacity, calls[|calls| - 1]))
  }

  /** Same addresses, permanent together; a timed ban ends in the file at a whole
      second at most one second before it ends in the kernel. */
  predicate Close(file: map<string, int>, kernel: map<string, int>, lag: nat) {
    && file.Keys == kernel.Keys
    && forall ip :: ip in file ==>
         && (file[ip] == 0 <==> kernel[ip] == 0)
         && (file[ip] != 0 ==>
              kernel[ip] + lag - 1_000_000_000 < file[ip] * 1_000_000_000 <= kernel[ip] + lag)
  }

  lemma OneCallKeepsClose(file: map<string, int>, kernel: map<string, int>, lag: nat, c: Call)
    requires Close(file, kernel, lag) && lag <= c.wallNs
    ensures Close(BanSpec.Apply(file, ForFile(c)), Guard.Mean(kernel, true, ForKernel(c, lag)), lag)
  {
    if c.v.BanFor? && c.v.ttl > 0 {
      var start := c.wallNs / 1_000_000_000;
      assert start * 1_000_000_000 <= c.wallNs < start * 1_000_000_000 + 1_000_000_000;
    }
  }

  lemma {:induction false} BackendsClose(calls: seq<Call>, lag: nat, capacity: nat)
    requires forall i :: 0 <= i < |calls| ==> lag <= calls[i].wallNs
    requires AllInserted(capacity, KernelCalls(calls, lag))
    ensures Close(FileBans(calls), Guard.Maps(capacity, KernelCalls(calls, lag)).1, lag)
  {
    if calls != [] {
      var before, all := calls[..|calls| - 1], KernelCalls(calls, lag);
      assert all[..|all| - 1] == KernelCalls(before, lag);
      BackendsClose(before, lag, capacity);
      OneCallKeepsClose(FileBans(before), Guard.Maps(capacity, KernelCalls(before, lag)).1, lag, calls[|calls| - 1]);
    }
  }

  lemma KernelCallsOrdered(calls: seq<Call>, lag: nat)
    requires forall i :: 0 <= i < |calls| ==> lag <= calls[i].wallNs
    ensures forall i :: 0 <= i < |calls| ==> KernelCalls(calls, lag)[i] == ForKernel(calls[i], lag)
  {
    if calls != [] {
      var before := calls[..|calls| - 1];
      KernelCallsOrdered(before, lag);
      forall i | 0 <= i < |calls| ensures KernelCalls(calls, lag)[i] == ForKernel(calls[i], lag) {
        if i < |before| { assert before[i] == calls[i]; }
      }
    }
  }

  lemma KernelCallsMonotone(calls: seq<Call>, lag: nat, wallNs: nat)
    requires forall i :: 0 <= i < |calls| ==> lag <= calls[i].wallNs
    requires Ordered(calls, wallNs) && lag <= wallNs
    ensures var all := KernelCalls(calls, lag);
            Guard.Monotone(all) && (all != [] ==> all[|all| - 1].mono <= wallNs - lag)
  {
    hide KernelCalls;
    KernelCallsOrdered(calls, lag);
  }

  /** A deadline in the file and its counterpart in the kernel, at one instant. */
  lemma DeadlinesApart(file: int, kernel: int, lag: nat, wallNs: nat)
    requires file == 0 <==> kernel == 0
    requires file != 0 ==> kernel + lag - 1_000_000_000 < file * 1_000_000_000 <= kernel + lag
    ensures var inFile, inKernel := BanSpec.InForce(file, wallNs / 1_000_000_000), BanSpec.InForce(kernel, wallNs - lag);
            && (inFile ==> inKernel)
            && (inKernel && !inFile ==> 0 < kernel - (wallNs - lag) < 1_000_000_000)
  {
    var second := wallNs / 1_000_000_000;
    assert second * 1_000_000_000 <= wallNs < (second + 1) * 1_000_000_000;
  }

  lemma FileWithinOneSecond(calls: seq<Call>, lag: nat, capacity: nat, ip: string, wallNs: nat)
    requires forall i :: 0 <= i < |calls| ==> lag <= calls[i].wallNs
    requires Ordered(calls, wallNs) && lag <= wallNs && wallNs - lag < Guard.U64_MAX
    requires AllInserted(capacity, KernelCalls(calls, lag))
    ensures var kernel := Guard.Maps(capacity, KernelCalls(calls, lag));
            var inFile := BanSpec.Banned(FileBans(calls), ip, wallNs / 1_000_000_000);
            var inKernel := Guard.Drops(kernel.0, ip, wallNs - lag);
            && (inFile ==> inKernel)
            && (inKernel && !inFile ==>
                  ip in kernel.1 && 0 < kernel.1[ip] - (wallNs - lag) < 1_000_000_000)
            && (ip in FileBans(calls) && FileBans(calls)[ip] == 0 <==> ip in kernel.1 && kernel.1[ip] == 0)
  {
    hide FileBans, KernelCalls, AllInserted, Ordered, Guard.Maps, Guard.Drops, Guard.Monotone, BanSpec.InForce;
    BackendsClose(calls, lag, capacity);
    KernelCallsMonotone(calls, lag, wallNs);
    Guard.KernelEnforcesTheBans(capacity, KernelCalls(calls, lag), ip, wallNs - lag);
    var file, kernel := FileBans(calls), Guard.Maps(capacity, KernelCalls(calls, lag)).1;
    if ip in file { DeadlinesApart(file[ip], kernel[ip], lag, wallNs); }
  }

  /** Both backends fed the same calls, at any later instant: an address the
      file's check verb reports is dropped by the classifier, and one only the
      classifier drops is within a second of the end of its ban there. Permanent
      bans agree exactly. */
  lemma BackendsWithinOneSecond(calls: seq<Call>, lag: nat, capacity: nat, ip: string, wallNs: nat)
    requires forall i :: 0 <= i < |calls| ==> lag <= calls[i].wallNs
    requires Ordered(calls, wallNs) && lag <= wallNs && wallNs - lag < Guard.U64_MAX
    requires AllInserted(capacity, KernelCalls(calls, lag))
    ensures var kernel := Guard.Maps(capacity, KernelCalls(calls, lag));
            var answer := BanFile.Check(FileAfter(calls), ip, wallNs / 1_000_000_000);
            var inKernel := Guard.Drops(kernel.0, ip, wallNs - lag);
            && (answer != [] ==> inKernel)
            && (inKernel && answer == [] ==>
                  ip in kernel.1 && 0 < kernel.1[ip] - (wallNs - lag) < 1_000_000_000)
            && (answer == [0] <==> ip in kernel.1 && kernel.1[ip] == 0)
  {
    hide BanFile.Agrees, BanFile.Check, Guard.Maps, FileAfter, FileBans, AllInserted, KernelCalls;
    FileAgrees(calls, wallNs);
    BanFile.CheckAnswers(FileAfter(calls), FileBans(calls), wallNs / 1_000_000_000, ip, wallNs / 1_000_000_000);
    FileWithinOneSecond(calls, lag, capacity, ip, wallNs);
  }
}
