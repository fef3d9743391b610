/** What a parsed message may contain: the Nostr policy of one listener. */
module Policy {
  import opened Wrappers

  /** A JavaScript number; JSON text such as 1e999 parses to an infinity. */
  datatype Number = Finite(r: real) | PosInf | NegInf {
    predicate Exceeds(limit: real) {
      PosInf? || (Finite? && r > limit)
    }
  }

  /** The JavaScript values JSON.parse can yield, plus the `undefined` read
      past the end of an array. */
  datatype Value =
    | Undefined
    | Null
    | Bool(b: bool)
    | Num(n: Number)
    | Str(s: string)
    | Arr(items: seq<Value>)
    | Obj(fields: seq<Field>)

  datatype Field = Field(key: string, value: Value)

  function Arg(msg: seq<Value>, i: nat): Value {
    if i < |msg| then msg[i] else Undefined
  }

  /** f[key] of an object. */
  function Get(fields: seq<Field>, key: string): Value {
    if fields == [] then Undefined
    else if fields[0].key == key then fields[0].value
    else Get(fields[1..], key)
  }

  /** Field `i` is the one its key reads: no earlier one has that key. A parsed
      object has no two fields of one key, so there every field is. */
  predicate Reads(fields: seq<Field>, i: nat, key: string)
    requires i < |fields|
  {
    fields[i].key == key && forall j :: 0 <= j < i ==> fields[j].key != key
  }

  /** Reading a key finds the value of its field, wherever it stands; an absent
      key reads as undefined. */
  lemma {:induction false} GetFinds(fields: seq<Field>, key: string)
    ensures forall i :: 0 <= i < |fields| && Reads(fields, i, key) ==> Get(fields, key) == fields[i].value
    ensures (forall i :: 0 <= i < |fields| ==> fields[i].key != key) ==> Get(fields, key) == Undefined
    ensures Get(fields, key) == Undefined || exists i :: 0 <= i < |fields| && Reads(fields, i, key)
  {
    if fields != [] && fields[0].key != key {
      GetFinds(fields[1..], key);
      forall i | 0 <= i < |fields| && Reads(fields, i, key) ensures Get(fields, key) == fields[i].value {
        assert forall j :: 0 <= j < i - 1 ==> fields[1..][j] == fields[j + 1];
        assert Reads(fields[1..], i - 1, key);
      }
      assert forall i :: 0 <= i < |fields| - 1 ==> fields[1..][i] == fields[i + 1];
      if i :| 0 <= i < |fields[1..]| && Reads(fields[1..], i, key) {
        assert forall j :: 0 < j < i + 1 ==> fields[j] == fields[1..][j - 1];
        assert Reads(fields, i + 1, key);
      }
    } else if fields != [] {
      assert Reads(fields, 0, key);
    }
  }

  /** For an object without repeated keys: any field is found by its key. */
  lemma GetOfDistinctKeys(fields: seq<Field>, key: string, v: Value)
    requires forall i, j :: 0 <= i < j < |fields| ==> fields[i].key != fields[j].key
    ensures Field(key, v) in fields ==> Get(fields, key) == v
    ensures (forall f :: f in fields ==> f.key != key) ==> Get(fields, key) == Undefined
  {
    GetFinds(fields, key);
    if Field(key, v) in fields {
      var i :| 0 <= i < |fields| && fields[i] == Field(key, v);
      assert Reads(fields, i, key);
    }
  }

  datatype Rule =
    | MsgRate | EventRate | ReqRate
    | Malformed | TypeNotAllowed | KindDenied | FilterComplexity | TooManySubs
    | Protocol | BinaryFrame | OversizedMessage | FrameFlood
    | OversizedHandshake | Banned

  function RuleText(r: Rule): (s: string)
    ensures |s| <= 100
  {
    match r
    case MsgRate => "msg-rate"
    case EventRate => "event-rate"
    case ReqRate => "req-rate"
    case Malformed => "malformed"
    case TypeNotAllowed => "type-not-allowed"
    case KindDenied => "kind-denied"
    case FilterComplexity => "filter-complexity"
    case TooManySubs => "too-many-subs"
    case Protocol => "protocol"
    case BinaryFrame => "binary-frame"
    case OversizedMessage => "oversized-message"
    case FrameFlood => "frame-flood"
    case OversizedHandshake => "oversized-handshake"
    case Banned => "banned"
  }

  datatype Cfg = Cfg(
    banOn: bool,
    banRecheck: int,
    maxMsg: int,
    maxSubs: int,
    maxFilters: int,
    maxFilterItems: int,
    maxLimit: real,
    maxFilterValue: int,
    requireNarrowing: bool,
    maxHsReads: int,
    maxMsgReads: int,
    msgRate: real, msgBurst: real,
    eventRate: real, eventBurst: real,
    reqRate: real, reqBurst: real,
    types: set<string>,
    kindDeny: set<string>)

  const MIN_MSG_READS := 64

  /** Default read budget per message: ceil(maxMsg / 1024) + 64. */
  function DefaultMsgReads(maxMsg: nat): int {
    (maxMsg + 1023) / 1024 + MIN_MSG_READS
  }

  /** Room for the largest message in segments of 1024 bytes, with 64 to spare. */
  lemma DefaultReadsSuffice(maxMsg: nat)
    ensures 1024 * (DefaultMsgReads(maxMsg) - 65) < maxMsg <= 1024 * (DefaultMsgReads(maxMsg) - 64) || maxMsg == 0
    ensures maxMsg == 0 ==> DefaultMsgReads(maxMsg) == 64
  {
  }

  const NARROWING: set<string> := {"ids", "authors", "kinds", "since", "until", "search"}

  /** How many items a value adds to the query cost. */
  function Items(v: Value): nat {
    if v.Arr? then |v.items| else 0
  }

  function FieldItems(fields: seq<Field>): nat {
    if fields == [] then 0
    else FieldItems(fields[..|fields| - 1]) + Items(fields[|fields| - 1].value)
  }

  function FilterItems(filters: seq<Value>): nat {
    if filters == [] then 0
    else
      var f := filters[|filters| - 1];
      FilterItems(filters[..|filters| - 1]) + if f.Obj? then |f.fields| + FieldItems(f.fields) else 0
  }

  lemma {:induction false} FieldItemsAdd(a: seq<Field>, b: seq<Field>)
    ensures FieldItems(a + b) == FieldItems(a) + FieldItems(b)
  {
    if b == [] {
      assert a + b == a;
    } else {
      assert (a + b)[..|a + b| - 1] == a + b[..|b| - 1];
      FieldItemsAdd(a, b[..|b| - 1]);
    }
  }

  /** The cost of a query: one for each field of each filter and one for each
      item of an array in it, nothing for anything else; and costs add up, both
      over filters and over the fields of one. */
  lemma {:induction false} CostAddsUp(a: seq<Value>, b: seq<Value>)
    ensures FilterItems([]) == 0 && FilterItems(a + b) == FilterItems(a) + FilterItems(b)
    ensures forall fs, gs :: FilterItems([Obj(fs + gs)]) == FilterItems([Obj(fs)]) + FilterItems([Obj(gs)])
    ensures forall key, items :: FilterItems([Obj([Field(key, Arr(items))])]) == 1 + |items|
    ensures forall key, v: Value :: !v.Arr? ==> FilterItems([Obj([Field(key, v)])]) == 1
    ensures forall v: Value :: !v.Obj? ==> FilterItems([v]) == 0
  {
    forall fs, gs ensures FilterItems([Obj(fs + gs)]) == FilterItems([Obj(fs)]) + FilterItems([Obj(gs)]) {
      FieldItemsAdd(fs, gs);
      OneFilter(Obj(fs));
      OneFilter(Obj(gs));
      OneFilter(Obj(fs + gs));
    }
    forall key, v: Value ensures FilterItems([Obj([Field(key, v)])]) == 1 + Items(v) {
      OneFilter(Obj([Field(key, v)]));
      assert [Field(key, v)][..0] == [];
    }
    forall v: Value ensures FilterItems([v]) == if v.Obj? then |v.fields| + FieldItems(v.fields) else 0 { OneFilter(v); }
    if b == [] {
      assert a + b == a;
    } else {
      assert (a + b)[..|a + b| - 1] == a + b[..|b| - 1];
      CostAddsUp(a, b[..|b| - 1]);
    }
  }

  lemma OneFilter(v: Value)
    ensures FilterItems([v]) == if v.Obj? then |v.fields| + FieldItems(v.fields) else 0
  {
    assert [v][..0] == [];
  }

  predicate ShortEnough(v: Value, max: int) {
    v.Str? ==> |v.s| <= max
  }

  predicate ValueFits(v: Value, max: int) {
    && ShortEnough(v, max)
    && (v.Arr? ==> forall j :: 0 <= j < |v.items| ==> ShortEnough(v.items[j], max))
  }

  /** A key that says which events are wanted. */
  predicate Selects(key: string) {
    || (key != "" && key[0] == '#')
    || key == "ids" || key == "authors" || key == "kinds" || key == "since" || key == "until" || key == "search"
  }

  /** A number asking for no more than `most`; anything else asks for nothing. */
  predicate AsksAtMost(v: Value, most: real) {
    v.Num? ==> (match v.n case Finite(r) => r <= most case PosInf => false case NegInf => true)
  }

  predicate LimitFits(fields: seq<Field>, most: real) {
    forall i :: 0 <= i < |fields| && Reads(fields, i, "limit") ==> AsksAtMost(fields[i].value, most)
  }

  /** One filter within the query-cost policy. */
  predicate FilterConforms(cfg: Cfg, f: Value) {
    && f.Obj?
    && (cfg.requireNarrowing ==> exists i :: 0 <= i < |f.fields| && Selects(f.fields[i].key))
    && LimitFits(f.fields, cfg.maxLimit)
    && (forall i :: 0 <= i < |f.fields| ==> ValueFits(f.fields[i].value, cfg.maxFilterValue))
  }

  lemma LimitRead(fields: seq<Field>, most: real)
    ensures Get(fields, "limit").Num? && Get(fields, "limit").n.Exceeds(most) <==> !LimitFits(fields, most)
  {
    GetFinds(fields, "limit");
    if i :| 0 <= i < |fields| && Reads(fields, i, "limit") {
      assert Get(fields, "limit") == fields[i].value;
    }
  }

  /** The filters of one query, taken together. */
  predicate FiltersConform(cfg: Cfg, filters: seq<Value>) {
    && 1 <= |filters| <= cfg.maxFilters
    && (forall i :: 0 <= i < |filters| ==> FilterConforms(cfg, filters[i]))
    && FilterItems(filters) <= cfg.maxFilterItems
  }

  function FilterFault(cfg: Cfg, f: Value): Option<Rule> {
    if !f.Obj? then Some(Malformed) else if !FilterConforms(cfg, f) then Some(FilterComplexity) else None
  }

  /** The first offending filter decides between the two rules. */
  function FirstFault(cfg: Cfg, filters: seq<Value>): Option<Rule> {
    if filters == [] then None
    else if FilterFault(cfg, filters[0]).Some? then FilterFault(cfg, filters[0])
    else FirstFault(cfg, filters[1..])
  }

  function FiltersFault(cfg: Cfg, filters: seq<Value>): Option<Rule> {
    if |filters| < 1 || |filters| > cfg.maxFilters then Some(FilterComplexity)
    else if FirstFault(cfg, filters).Some? then FirstFault(cfg, filters)
    else if FilterItems(filters) > cfg.maxFilterItems then Some(FilterComplexity)
    else None
  }

  lemma {:induction false} NoFirstFault(cfg: Cfg, filters: seq<Value>)
    ensures FirstFault(cfg, filters) == None
       <==> forall i :: 0 <= i < |filters| ==> FilterConforms(cfg, filters[i])
  {
    if filters != [] {
      NoFirstFault(cfg, filters[1..]);
      assert forall i :: 0 < i < |filters| ==> filters[i] == filters[1..][i - 1];
      if FirstFault(cfg, filters) == None {
        forall i | 0 <= i < |filters| ensures FilterConforms(cfg, filters[i]) {
          if i > 0 { assert FilterConforms(cfg, filters[1..][i - 1]); }
        }
      }
    }
  }

  /** A query is refused exactly when its filters break the policy. */
  lemma FiltersFaultIffNonconforming(cfg: Cfg, filters: seq<Value>)
    ensures FiltersFault(cfg, filters) == None <==> FiltersConform(cfg, filters)
  {
    NoFirstFault(cfg, filters);
  }

  lemma {:induction false} FirstFaultSplit(cfg: Cfg, a: seq<Value>, b: seq<Value>)
    requires FirstFault(cfg, a) == None
    ensures FirstFault(cfg, a + b) == FirstFault(cfg, b)
  {
    if a == [] {
      assert a + b == b;
    } else {
      assert (a + b)[1..] == a[1..] + b;
      FirstFaultSplit(cfg, a[1..], b);
    }
  }

  /** isNarrowing: some key constrains the query. */
  method IsNarrowing(fields: seq<Field>) returns (r: bool)
    ensures r <==> exists i :: 0 <= i < |fields| && Selects(fields[i].key)
  {
    for i := 0 to |fields|
      invariant forall k :: 0 <= k < i ==> !Selects(fields[k].key)
    {
      if (|fields[i].key| > 0 && fields[i].key[0] == '#') || fields[i].key in NARROWING {
        return true;
      }
    }
    return false;
  }

  /** The values of one filter: every string within bounds, and the item count. */
  method CheckValues(cfg: Cfg, fields: seq<Field>) returns (ok: bool, items: nat)
    ensures ok <==> forall i :: 0 <= i < |fields| ==> ValueFits(fields[i].value, cfg.maxFilterValue)
    ensures ok ==> items == FieldItems(fields)
  {
    items := 0;
    for k := 0 to |fields|
      invariant items == FieldItems(fields[..k])
      invariant forall i :: 0 <= i < k ==> ValueFits(fields[i].value, cfg.maxFilterValue)
    {
      assert fields[..k + 1][..k] == fields[..k];
      var v := fields[k].value;
      if v.Arr? {
        items := items + |v.items|;
        for j := 0 to |v.items|
          invariant forall i :: 0 <= i < j ==> ShortEnough(v.items[i], cfg.maxFilterValue)
        {
          if v.items[j].Str? && |v.items[j].s| > cfg.maxFilterValue {
            return false, items;
          }
        }
      } else if v.Str? && |v.s| > cfg.maxFilterValue {
        return false, items;
      }
    }
    assert fields[..|fields|] == fields;
    return true, items;
  }

  /** One filter: the rule that closes the session, if any, and its cost. */
  method CheckFilter(cfg: Cfg, f: Value) returns (fault: Option<Rule>, items: nat)
    ensures fault == FilterFault(cfg, f)
    ensures fault == None ==> f.Obj? && items == |f.fields| + FieldItems(f.fields)
  {
    hide Get, LimitFits, FieldItems;
    if !f.Obj? { return Some(Malformed), 0; }
    if cfg.requireNarrowing {
      var narrowing := IsNarrowing(f.fields);
      if !narrowing { return Some(FilterComplexity), 0; }
    }
    var limit := Get(f.fields, "limit");
    LimitRead(f.fields, cfg.maxLimit);
    if limit.Num? && limit.n.Exceeds(cfg.maxLimit) { return Some(FilterComplexity), 0; }
    var ok, n := CheckValues(cfg, f.fields);
    if !ok { return Some(FilterComplexity), 0; }
    return None, |f.fields| + n;
  }

  /** checkFilters: the rule that closes the session, if any. */
  method CheckFilters(cfg: Cfg, filters: seq<Value>) returns (fault: Option<Rule>)
    ensures fault == FiltersFault(cfg, filters)
  {
    hide FilterConforms, FieldItems;
    if |filters| < 1 { return Some(FilterComplexity); }
    if |filters| > cfg.maxFilters { return Some(FilterComplexity); }
    var items := 0;
    for i := 0 to |filters|
      invariant FirstFault(cfg, filters[..i]) == None
      invariant items == FilterItems(filters[..i])
    {
      assert filters == filters[..i] + filters[i..] && filters[..i + 1] == filters[..i] + [filters[i]];
      FirstFaultSplit(cfg, filters[..i], filters[i..]);
      FirstFaultSplit(cfg, filters[..i], [filters[i]]);
      var found, n := CheckFilter(cfg, filters[i]);
      if found.Some? { return found; }
      items := items + n;
    }
    assert filters[..|filters|] == filters;
    if items > cfg.maxFilterItems { return Some(FilterComplexity); }
    return None;
  }

  /** `a` is pointwise at least as tight as `b`. */
  predicate Tighter(a: Cfg, b: Cfg) {
    && a.maxMsg <= b.maxMsg && a.maxSubs <= b.maxSubs
    && a.maxFilters <= b.maxFilters && a.maxFilterItems <= b.maxFilterItems
    && a.maxLimit <= b.maxLimit && a.maxFilterValue <= b.maxFilterValue
    && (b.requireNarrowing ==> a.requireNarrowing)
    && a.maxHsReads <= b.maxHsReads && a.maxMsgReads <= b.maxMsgReads
    && a.msgRate <= b.msgRate && a.msgBurst <= b.msgBurst
    && a.eventRate <= b.eventRate && a.eventBurst <= b.eventBurst
    && a.reqRate <= b.reqRate && a.reqBurst <= b.reqBurst
    && a.types <= b.types && b.kindDeny <= a.kindDeny
  }

  lemma TighterFilters(a: Cfg, b: Cfg, filters: seq<Value>)
    requires Tighter(a, b) && FiltersConform(a, filters)
    ensures FiltersConform(b, filters)
  {
    forall i | 0 <= i < |filters| ensures FilterConforms(b, filters[i]) {
      assert FilterConforms(a, filters[i]);
      var fields := filters[i].fields;
      forall k | 0 <= k < |fields| ensures ValueFits(fields[k].value, b.maxFilterValue) {
        assert ValueFits(fields[k].value, a.maxFilterValue);
      }
    }
  }

  const NOSTR_TYPES: set<string> :=
    {"EVENT", "REQ", "CLOSE", "COUNT", "AUTH", "NEG-OPEN", "NEG-MSG", "NEG-CLOSE"}

  /** The three shipped levels of the strfry profile, with ban checks off. */
  const STRICT := Cfg(false, 10, 65536, 25, 10, 750, 5000.0, 256, true, 16, 64,
                      10.0, 50.0, 2.0, 20.0, 5.0, 30.0, NOSTR_TYPES, {})
  const DEFAULT := Cfg(false, 10, 131072, 50, 20, 2000, 20000.0, 512, true, 32, DefaultMsgReads(131072),
                       30.0, 200.0, 5.0, 50.0, 10.0, 60.0, NOSTR_TYPES, {})
  const LOOSE := Cfg(false, 10, 131072, 100, 40, 5000, 100000.0, 1024, false, 64, DefaultMsgReads(131072),
                     100.0, 400.0, 10.0, 100.0, 20.0, 120.0, NOSTR_TYPES, {})
}
