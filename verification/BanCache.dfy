/** The banlist as the nginx workers read it: cached by modification time and
    size, compared in milliseconds. */
module BanCache {
  import opened Wrappers
  import opened BanSpec
  import BanFile

  /** A deadline as parseInt reads it; a corrupt one is not a number. */
  datatype Deadline = NaN | At(s: int)

  datatype Line = Line(ip: string, until: Deadline)

  /** What the file system answers for a path at one instant. */
  datatype Disk =
    | Missing
    | Present(mtime: int, size: nat, readable: bool, lines: seq<Line>)

  type BanMap = map<string, Deadline>

  /** A later line for an address replaces an earlier one. */
  function Parse(lines: seq<Line>): BanMap {
    if lines == [] then map[]
    else Parse(lines[..|lines| - 1])[lines[|lines| - 1].ip := lines[|lines| - 1].until]
  }

  /** Line `i` is the last one about its address. */
  predicate LastLine(lines: seq<Line>, i: nat)
    requires i < |lines|
  {
    forall j :: i < j < |lines| ==> lines[j].ip != lines[i].ip
  }

  lemma {:induction false} LastLineCounts(lines: seq<Line>, ip: string)
    ensures forall i :: 0 <= i < |lines| && LastLine(lines, i) && lines[i].ip == ip ==>
              ip in Parse(lines) && Parse(lines)[ip] == lines[i].until
    ensures ip in Parse(lines) ==> exists i :: 0 <= i < |lines| && LastLine(lines, i) && lines[i].ip == ip
  {
    if lines != [] {
      var n := |lines| - 1;
      LastLineCounts(lines[..n], ip);
      if lines[n].ip == ip {
        assert LastLine(lines, n);
      } else {
        forall i | 0 <= i < n && lines[i].ip == ip ensures LastLine(lines, i) == LastLine(lines[..n], i) { }
      }
    }
  }

  datatype Cache = Cache(path: string, mtime: int, size: int, bans: BanMap, loadFailed: bool)

  const EMPTY := Cache("", 0, -1, map[], false)

  function Load(c: Cache, path: string, d: Disk): Cache {
    match d
    case Missing => Cache(path, 0, -1, map[], true)
    case Present(mtime, size, readable, lines) =>
      if c.path == path && c.mtime == mtime && c.size == size then c.(loadFailed := false)
      else if !readable then c.(loadFailed := false)
      else Cache(path, mtime, size, Parse(lines), false)
  }

  /** The decision on a deadline, in milliseconds; a corrupt one fails closed. */
  predicate Cuts(bans: BanMap, ip: string, nowMs: int) {
    ip in bans && (bans[ip].NaN? || bans[ip].s == 0 || bans[ip].s * 1000 > nowMs)
  }

  class Reader {
    var path: string
    var mtime: int
    var size: int
    var bans: BanMap
    var loadFailed: bool

    ghost function State(): Cache
      reads this
    {
      Cache(path, mtime, size, bans, loadFailed)
    }

    constructor ()
      ensures State() == EMPTY
    {
      path, mtime, size, bans, loadFailed := "", 0, -1, map[], false;
    }

    method LoadBans(p: string, d: Disk) returns (view: BanMap)
      modifies this
      ensures State() == Load(old(State()), p, d) && view == bans
    {
      if d.Missing? {
        loadFailed := true;
        path, mtime, size, bans := p, 0, -1, map[];
        return bans;
      }
      loadFailed := false;
      if path == p && mtime == d.mtime && size == d.size {
        return bans;
      }
      if !d.readable {
        return bans;
      }
      var table: BanMap := map[];
      for i := 0 to |d.lines|
        invariant table == Parse(d.lines[..i])
      {
        table := table[d.lines[i].ip := d.lines[i].until];
        assert d.lines[..i + 1][..i] == d.lines[..i];
      }
      assert d.lines[..|d.lines|] == d.lines;
      path, mtime, size, bans := p, d.mtime, d.size, table;
      return bans;
    }

    method IsBanned(ip: string, p: string, d: Disk, nowMs: int) returns (banned: bool)
      modifies this
      ensures State() == (if p == "" then old(State()) else Load(old(State()), p, d))
      ensures banned == (p != "" && Cuts(Load(old(State()), p, d).bans, ip, nowMs))
    {
      if p == "" { return false; }
      var view := LoadBans(p, d);
      if ip !in view { return false; }
      var until := view[ip];
      if until.NaN? { return true; }
      return until.s == 0 || until.s * 1000 > nowMs;
    }
  }

  /** One earlier look at some path. */
  datatype Look = Look(path: string, disk: Disk)

  function After(history: seq<Look>): Cache {
    if history == [] then EMPTY
    else Load(After(history[..|history| - 1]), history[|history| - 1].path, history[|history| - 1].disk)
  }

  /** Modification time and size determine what a path holds, and reads of a
      present file succeed. */
  ghost predicate Determined(content: (string, int, nat) -> seq<Line>, l: Look) {
    l.disk.Present? ==> l.disk.readable && l.disk.lines == content(l.path, l.disk.mtime, l.disk.size)
  }

  lemma {:induction false} CacheFaithful(content: (string, int, nat) -> seq<Line>, history: seq<Look>)
    requires forall i :: 0 <= i < |history| ==> Determined(content, history[i])
    ensures var c := After(history);
            c.size >= -1 && (c.size >= 0 ==> c.bans == Parse(content(c.path, c.mtime, c.size)))
  {
    if history != [] {
      CacheFaithful(content, history[..|history| - 1]);
      assert Determined(content, history[|history| - 1]);
    }
  }

  /** What an uncached reader would say. */
  predicate FreshAnswer(d: Disk, ip: string, nowMs: int) {
    d.Present? && Cuts(Parse(d.lines), ip, nowMs)
  }

  predicate Condemns(l: Line, ip: string, nowMs: int) {
    l.ip == ip && match l.until case NaN => true case At(s) => s == 0 || 1000 * s > nowMs
  }

  /** In so many words: some line is the last about the address, and its deadline
      is corrupt, or zero, or later than now. */
  lemma FreshAnswerMeans(d: Disk, ip: string, nowMs: int)
    ensures FreshAnswer(d, ip, nowMs)
       <==> d.Present? && exists i :: 0 <= i < |d.lines| && LastLine(d.lines, i) && Condemns(d.lines[i], ip, nowMs)
  {
    hide LastLine, Parse;
    if d.Present? { LastLineCounts(d.lines, ip); }
  }

  /** After any history of rewrites, deletions and re-creations of any paths,
      the cached answer is the one a fresh read of the file gives. */
  lemma CachedAnswerIsFresh(content: (string, int, nat) -> seq<Line>, history: seq<Look>, now: Look, ip: string, nowMs: int)
    requires forall i :: 0 <= i < |history| ==> Determined(content, history[i])
    requires Determined(content, now)
    ensures Cuts(Load(After(history), now.path, now.disk).bans, ip, nowMs) == FreshAnswer(now.disk, ip, nowMs)
  {
    CacheFaithful(content, history);
  }

  /** The lines of a file as the backend wrote it. */
  function Written(file: BanFile.File): seq<Line> {
    seq(|BanFile.Lines(file)|, i requires 0 <= i < |BanFile.Lines(file)| =>
      Line(BanFile.Lines(file)[i].ip, At(BanFile.Lines(file)[i].until)))
  }

  lemma {:induction false} ParseWritten(entries: seq<BanFile.Entry>, ip: string)
    requires BanFile.OneLineEach(entries)
    ensures var m := Parse(Written(Some(entries)));
            && (ip in m ==> m[ip].At? && BanFile.Entry(ip, m[ip].s) in entries)
            && (forall e :: e in entries && e.ip == ip ==> ip in m && m[ip] == At(e.until))
  {
    if entries != [] {
      var n := |entries| - 1;
      ParseWritten(entries[..n], ip);
      var lines := Written(Some(entries));
      assert lines[..n] == Written(Some(entries[..n]));
      assert lines[n] == Line(entries[n].ip, At(entries[n].until));
      assert Parse(lines) == Parse(lines[..n])[lines[n].ip := lines[n].until];
      assert entries == entries[..n] + [entries[n]];
      LastLineAlone(entries);
    }
  }

  lemma LastLineAlone(entries: seq<BanFile.Entry>)
    requires entries != [] && BanFile.OneLineEach(entries)
    ensures forall e :: e in entries[..|entries| - 1] ==> e.ip != entries[|entries| - 1].ip
  {
    forall e | e in entries[..|entries| - 1] ensures e.ip != entries[|entries| - 1].ip {
      var j :| 0 <= j < |entries| - 1 && entries[..|entries| - 1][j] == e;
      assert entries[j] == e;
    }
  }

  /** The banlist as a worker finds it on disk. */
  function DiskOf(file: BanFile.File, mtime: int, size: nat): Disk {
    if file.None? then Missing else Present(mtime, size, true, Written(file))
  }

  /** Whole seconds on one side and milliseconds on the other come to the same
      decision on every file the backend writes. */
  lemma WorkerAgreesWithCheck(file: BanFile.File, mtime: int, size: nat, ip: string, nowMs: int)
    requires BanFile.OneLineEach(BanFile.Lines(file))
    ensures FreshAnswer(DiskOf(file, mtime, size), ip, nowMs) <==> BanFile.Check(file, ip, nowMs / 1000) != []
  {
    hide BanFile.Unexpired, Parse;
    if file.Some? {
      var now := nowMs / 1000;
      ParseWritten(file.value, ip);
      BanFile.UnexpiredMembers(file.value, now);
      BanFile.DeadlinesOf(BanFile.ActiveEntries(file, now), ip);
      var m := Parse(Written(file));
      var answer := BanFile.Check(file, ip, now);
      assert forall u: int :: u * 1000 > nowMs <==> u > now;
      if answer != [] {
        assert answer[0] in answer;
        assert BanFile.Entry(ip, answer[0]) in file.value;
        assert m[ip] == At(answer[0]);
      }
      if Cuts(m, ip, nowMs) {
        assert BanFile.Entry(ip, m[ip].s) in BanFile.ActiveEntries(file, now);
        assert m[ip].s in answer;
      }
    }
  }

  /** End to end: whatever processes have been doing to the banlist and however
      often a worker has looked at it before, a worker that looks now at the
      file turns an address away exactly when the commands installed so far
      have it banned at this second. */
  lemma WorkerEnforcesTheBans(content: (string, int, nat) -> seq<Line>, history: seq<Look>,
                              s: BanFile.System, steps: seq<BanFile.Step>,
                              path: string, mtime: int, size: nat, ip: string, nowMs: int)
    requires forall i :: 0 <= i < |history| ==> Determined(content, history[i])
    requires BanFile.Init(s) && BanFile.Legal(s, steps) && nowMs / 1000 == BanFile.Exec(s, steps).clock
    requires var file := BanFile.Exec(s, steps).file;
             file.Some? ==> content(path, mtime, size) == Written(file)
    ensures var disk := DiskOf(BanFile.Exec(s, steps).file, mtime, size);
            Cuts(Load(After(history), path, disk).bans, ip, nowMs) == Banned(BanFile.Bans(s, steps), ip, nowMs / 1000)
  {
    var file := BanFile.Exec(s, steps).file;
    CachedAnswerIsFresh(content, history, Look(path, DiskOf(file, mtime, size)), ip, nowMs);
    BanFile.ReadersSeeLockOrder(s, steps, ip, nowMs / 1000);
    WorkerAgreesWithCheck(file, mtime, size, ip, nowMs);
  }
}
