/** The one idea behind both ban backends: until when is each address banned. */
module BanSpec {

  /** Deadline 0 means until unbanned. */
  predicate InForce(until: int, now: int) {
    until == 0 || until > now
  }

  datatype Command = Ban(ip: string, until: int) | Unban(ip: string)

  function Apply(bans: map<string, int>, c: Command): map<string, int> {
    match c
    case Ban(ip, until) => bans[ip := until]
    case Unban(ip) => bans - {ip}
  }

  function ApplyAll(bans: map<string, int>, log: seq<Command>): map<string, int> {
    if log == [] then bans else Apply(ApplyAll(bans, log[..|log| - 1]), log[|log| - 1])
  }

  /** The last command about an address decides; the others do not matter to it. */
  lemma {:induction false} LastCommandDecides(log: seq<Command>, i: nat, ip: string)
    requires i < |log| && log[i].ip == ip && forall j :: i < j < |log| ==> log[j].ip != ip
    ensures var bans := ApplyAll(map[], log);
            match log[i]
            case Ban(_, until) => ip in bans && bans[ip] == until
            case Unban(_) => ip !in bans
    decreases |log|
  {
    if i < |log| - 1 { LastCommandDecides(log[..|log| - 1], i, ip); }
  }

  predicate Banned(bans: map<string, int>, ip: string, now: int) {
    ip in bans && InForce(bans[ip], now)
  }
}
