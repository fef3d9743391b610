/** A reader for RFC 8259 texts. */
module JsonReader {
  import opened Wrappers

  datatype Value =
    | Null
    | Bool(b: bool)
    | Number(text: string)
    | String(s: string)
    | Array(items: seq<Value>)
    | Object(members: seq<Member>)

  datatype Member = Member(key: string, value: Value)

  predicate Blank(c: char) { c == ' ' || c == '\t' || c == '\n' || c == '\r' }

  function SkipBlanks(s: string): (r: string)
    ensures |r| <= |s|
  {
    if s != "" && Blank(s[0]) then SkipBlanks(s[1..]) else s
  }

  predicate Starts(s: string, c: char) { s != "" && s[0] == c }

  predicate Digit(c: char) { '0' <= c <= '9' }

  /** Length of the run of digits at the start. */
  function DigitRun(s: string): (n: nat)
    ensures n <= |s|
  {
    if s != "" && Digit(s[0]) then 1 + DigitRun(s[1..]) else 0
  }

  /** Section 6, int: no superfluous leading zero. */
  function IntLength(s: string): (n: nat)
    ensures n <= |s|
  {
    if Starts(s, '0') then 1 else DigitRun(s)
  }

  function FracLength(s: string): (n: Option<nat>)
    ensures n.Some? ==> n.value <= |s|
  {
    if !Starts(s, '.') then Some(0)
    else if DigitRun(s[1..]) == 0 then None
    else Some(1 + DigitRun(s[1..]))
  }

  function ExpLength(s: string): (n: Option<nat>)
    ensures n.Some? ==> n.value <= |s|
  {
    if !Starts(s, 'e') && !Starts(s, 'E') then Some(0)
    else
      var sign := if Starts(s[1..], '+') || Starts(s[1..], '-') then 2 else 1;
      if DigitRun(s[sign..]) == 0 then None else Some(sign + DigitRun(s[sign..]))
  }

  /** Section 6, number. */
  function ReadNumber(s: string): (r: Option<(string, string)>)
    ensures r.Some? ==> |r.value.1| < |s|
  {
    var minus := if Starts(s, '-') then 1 else 0;
    var n := IntLength(s[minus..]);
    if n == 0 then None
    else
      var atFrac := minus + n;
      match FracLength(s[atFrac..])
      case None => None
      case Some(f) =>
        match ExpLength(s[atFrac + f..])
        case None => None
        case Some(e) => Some((s[..atFrac + f + e], s[atFrac + f + e..]))
  }

  function HexValue(c: char): Option<nat> {
    if '0' <= c <= '9' then Some(c as int - '0' as int)
    else if 'a' <= c <= 'f' then Some(c as int - 'a' as int + 10)
    else if 'A' <= c <= 'F' then Some(c as int - 'A' as int + 10)
    else None
  }

  function Hex4(s: string): (r: Option<nat>)
    ensures r.Some? ==> |s| >= 4
  {
    if |s| < 4 then None
    else
      match (HexValue(s[0]), HexValue(s[1]), HexValue(s[2]), HexValue(s[3]))
      case (Some(a), Some(b), Some(c), Some(d)) => Some(((a * 16 + b) * 16 + c) * 16 + d)
      case _ => None
  }

  /** One \uXXXX escape, or a surrogate pair of them; `s` starts after the u. */
  function ReadUnicode(s: string): (r: Option<(char, string)>)
    ensures r.Some? ==> |r.value.1| < |s|
  {
    match Hex4(s)
    case None => None
    case Some(u) =>
      if u < 0xd800 || 0xe000 <= u < 0x10000 then Some((u as char, s[4..]))
      else if u < 0xdc00 && |s| >= 6 && s[4] == '\\' && s[5] == 'u' then
        match Hex4(s[6..])
        case None => None
        case Some(low) =>
          if 0xdc00 <= low < 0xe000 then
            Some(((0x10000 + (u - 0xd800) * 0x400 + (low - 0xdc00)) as char, s[10..]))
          else None
      else None
  }

  /** One escape; `s` starts after the backslash. */
  function ReadEscape(s: string): (r: Option<(char, string)>)
    ensures r.Some? ==> |r.value.1| < |s|
  {
    if s == "" then None
    else
      match s[0]
      case '\"' => Some(('\"', s[1..]))
      case '\\' => Some(('\\', s[1..]))
      case '/' => Some(('/', s[1..]))
      case 'b' => Some((8 as char, s[1..]))
      case 'f' => Some((12 as char, s[1..]))
      case 'n' => Some(('\n', s[1..]))
      case 'r' => Some(('\r', s[1..]))
      case 't' => Some(('\t', s[1..]))
      case 'u' => ReadUnicode(s[1..])
      case _ => None
  }

  /** Section 7, after the opening quote: no bare control character, and the
      first unescaped quote ends the string. */
  function ReadString(s: string): (r: Option<(string, string)>)
    ensures r.Some? ==> |r.value.1| < |s|
    decreases |s|
  {
    if s == "" || s[0] as int < 0x20 then None
    else if s[0] == '\"' then Some(("", s[1..]))
    else if s[0] == '\\' then
      match ReadEscape(s[1..])
      case None => None
      case Some((c, rest)) =>
        (match ReadString(rest)
         case None => None
         case Some((tail, after)) => Some(([c] + tail, after)))
    else
      match ReadString(s[1..])
      case None => None
      case Some((tail, after)) => Some(([s[0]] + tail, after))
  }

  function ReadValue(s: string): (r: Option<(Value, string)>)
    ensures r.Some? ==> |r.value.1| < |s|
    decreases |s|, 0
  {
    if "true" <= s then Some((Bool(true), s[4..]))
    else if "false" <= s then Some((Bool(false), s[5..]))
    else if "null" <= s then Some((Null, s[4..]))
    else if Starts(s, '\"') then
      match ReadString(s[1..])
      case None => None
      case Some((t, rest)) => Some((String(t), rest))
    else if Starts(s, '[') then
      var inner := SkipBlanks(s[1..]);
      if Starts(inner, ']') then Some((Array([]), inner[1..]))
      else
        match ReadItems(inner)
        case None => None
        case Some((items, rest)) => Some((Array(items), rest))
    else if Starts(s, '{') then
      var inner := SkipBlanks(s[1..]);
      if Starts(inner, '}') then Some((Object([]), inner[1..]))
      else
        match ReadMembers(inner)
        case None => None
        case Some((members, rest)) => Some((Object(members), rest))
    else
      match ReadNumber(s)
      case None => None
      case Some((t, rest)) => Some((Number(t), rest))
  }

  /** One or more values up to the closing bracket. */
  function ReadItems(s: string): (r: Option<(seq<Value>, string)>)
    ensures r.Some? ==> |r.value.1| < |s|
    decreases |s|, 1
  {
    match ReadValue(s)
    case None => None
    case Some((v, rest)) =>
      var next := SkipBlanks(rest);
      if Starts(next, ']') then Some(([v], next[1..]))
      else if Starts(next, ',') then
        match ReadItems(SkipBlanks(next[1..]))
        case None => None
        case Some((vs, after)) => Some(([v] + vs, after))
      else None
  }

  /** One or more members up to the closing brace. */
  function ReadMembers(s: string): (r: Option<(seq<Member>, string)>)
    ensures r.Some? ==> |r.value.1| < |s|
    decreases |s|, 1
  {
    if !Starts(s, '\"') || ReadString(s[1..]).None? then None
    else
      var (k, afterKey) := ReadString(s[1..]).value;
      var colon := SkipBlanks(afterKey);
      if !Starts(colon, ':') then None
      else
        match ReadValue(SkipBlanks(colon[1..]))
        case None => None
        case Some((v, rest)) =>
          var next := SkipBlanks(rest);
          if Starts(next, '}') then Some(([Member(k, v)], next[1..]))
          else if Starts(next, ',') then
            match ReadMembers(SkipBlanks(next[1..]))
            case None => None
            case Some((ms, after)) => Some(([Member(k, v)] + ms, after))
          else None
  }

  /** A whole text: one value and nothing else but blanks. */
  function Read(s: string): Option<Value> {
    match ReadValue(SkipBlanks(s))
    case None => None
    case Some((v, rest)) => if SkipBlanks(rest) == "" then Some(v) else None
  }
}
