/** Whatever the writer emits, an RFC 8259 reader takes back to what was meant. */
module JsonRoundTrip {
  import opened Wrappers
  import Decimal
  import W = JsonWriter
  import R = JsonReader

  /** The JSON value a document stands for. */
  function Meaning(d: W.Doc): R.Value {
    match d
    case Text(s) => R.String(s)
    case Num(n) => R.Number(Decimal.Text(n))
    case Flag(b) => R.Bool(b)
    case Object(members) => R.Object(MemberMeanings(members))
    case Array(items) => R.Array(Meanings(items))
  }

  function Meanings(items: seq<W.Doc>): seq<R.Value> {
    if items == [] then [] else [Meaning(items[0])] + Meanings(items[1..])
  }

  function MemberMeanings(members: seq<W.Member>): seq<R.Member> {
    if members == [] then []
    else [R.Member(members[0].key, Meaning(members[0].value))] + MemberMeanings(members[1..])
  }

  // ---- Strings ----

  lemma {:induction false} EscapedFront(c: char, s: string)
    ensures W.Escaped([c] + s) == W.EscapeChar(c) + W.Escaped(s)
  {
    hide W.EscapeChar;
    if s == "" {
      assert ([c] + s)[..0] == "";
    } else {
      var n := |s| - 1;
      assert ([c] + s)[..n + 1] == [c] + s[..n];
      EscapedFront(c, s[..n]);
    }
  }

  /** What reading one more character in front of `tail` gives. */
  function Prepend(c: char, r: Option<(string, string)>): Option<(string, string)> {
    match r
    case None => None
    case Some((t, rest)) => Some(([c] + t, rest))
  }

  lemma ReadEscaped(c: char, tail: string)
    ensures R.ReadString(W.EscapeChar(c) + tail) == Prepend(c, R.ReadString(tail))
  {
    var s := W.EscapeChar(c) + tail;
    if c as int < 0x20 && c != '\n' && c != '\r' && c != '\t' {
      ReadControl(c, tail);
    } else if |W.EscapeChar(c)| == 2 {
      assert s[1..][1..] == tail;
    } else {
      assert s[1..] == tail;
    }
  }

  lemma HexDigit(d: nat)
    requires d < 16
    ensures R.HexValue(W.HEX[d]) == Some(d)
  {
  }

  lemma ReadControl(c: char, tail: string)
    requires c as int < 0x20
    ensures var h := "\\u00" + [W.HEX[c as int / 16], W.HEX[c as int % 16]] + tail;
            R.ReadString(h) == Prepend(c, R.ReadString(tail))
  {
    var h := "\\u00" + [W.HEX[c as int / 16], W.HEX[c as int % 16]] + tail;
    HexDigit(c as int / 16);
    HexDigit(c as int % 16);
    HexDigit(0);
    assert h[1..][1..] == "00" + [W.HEX[c as int / 16], W.HEX[c as int % 16]] + tail;
    assert h[1..][1..][4..] == tail;
  }

  lemma {:induction false} StringBack(s: string, rest: string)
    ensures R.ReadString(W.Escaped(s) + "\"" + rest) == Some((s, rest))
  {
    hide W.EscapeChar;
    if s == "" {
      assert "" + "\"" + rest == "\"" + rest;
      assert ("\"" + rest)[1..] == rest;
    } else {
      var tail := W.Escaped(s[1..]) + "\"" + rest;
      assert s == [s[0]] + s[1..];
      EscapedFront(s[0], s[1..]);
      assert W.Escaped(s) + "\"" + rest == W.EscapeChar(s[0]) + tail;
      ReadEscaped(s[0], tail);
      StringBack(s[1..], rest);
    }
  }

  /** Arbitrary contents survive, and nothing after the string is consumed. */
  lemma QuotedBack(s: string, rest: string)
    ensures var q := W.Quoted(s) + rest;
            q != "" && q[0] == '\"' && R.ReadString(q[1..]) == Some((s, rest))
  {
    assert (W.Quoted(s) + rest)[1..] == W.Escaped(s) + "\"" + rest;
    StringBack(s, rest);
  }

  // ---- Numbers ----

  /** Characters that would carry a number on. */
  predicate CarriesOn(rest: string) {
    rest != "" && (R.Digit(rest[0]) || rest[0] == '.' || rest[0] == 'e' || rest[0] == 'E')
  }

  lemma {:induction false} DigitRunOf(t: string, rest: string)
    requires forall i :: 0 <= i < |t| ==> Decimal.IsDigit(t[i])
    requires rest == "" || !R.Digit(rest[0])
    ensures R.DigitRun(t + rest) == |t|
  {
    if t == "" {
      assert t + rest == rest;
    } else {
      assert (t + rest)[1..] == t[1..] + rest;
      DigitRunOf(t[1..], rest);
    }
  }

  lemma NumberBack(n: nat, rest: string)
    requires !CarriesOn(rest)
    ensures R.ReadNumber(Decimal.Text(n) + rest) == Some((Decimal.Text(n), rest))
  {
    var t := Decimal.Text(n);
    var s := t + rest;
    assert s[0] == t[0];
    DigitRunOf(t, rest);
    assert s[0..] == s && s[|t|..] == rest && s[..|t|] == t;
    assert R.IntLength(s) == |t|;
    assert rest[0..] == rest;
  }

  // ---- Whole documents ----

  lemma {:induction false} JoinFront(x: string, parts: seq<string>)
    ensures W.Join([x] + parts) == if parts == [] then x else x + "," + W.Join(parts)
  {
    if |parts| > 1 {
      var n := |parts| - 1;
      assert ([x] + parts)[..n + 1] == [x] + parts[..n] && ([x] + parts)[n + 1] == parts[n];
      JoinFront(x, parts[..n]);
      assert W.Join([x] + parts) == x + "," + W.Join(parts[..n]) + "," + parts[n];
      assert W.Join(parts) == W.Join(parts[..n]) + "," + parts[n];
      assert x + "," + W.Join(parts[..n]) + "," + parts[n] == x + "," + (W.Join(parts[..n]) + "," + parts[n]);
    } else if |parts| == 1 {
      assert ([x] + parts)[..1] == [x];
    }
  }

  /** A document starts with a visible character. */
  lemma Visible(d: W.Doc)
    ensures W.Render(d) != "" && !R.Blank(W.Render(d)[0]) && W.Render(d)[0] != ']' && W.Render(d)[0] != '}'
  {
  }

  lemma TextBack(t: string, rest: string)
    ensures R.ReadValue(W.Quoted(t) + rest) == Some((R.String(t), rest))
  {
    hide W.Quoted, R.ReadString, R.ReadItems, R.ReadMembers, R.ReadNumber, R.SkipBlanks;
    QuotedBack(t, rest);
  }

  lemma NumBack(n: nat, rest: string)
    requires !CarriesOn(rest)
    ensures R.ReadValue(Decimal.Text(n) + rest) == Some((R.Number(Decimal.Text(n)), rest))
  {
    hide R.ReadString, R.ReadItems, R.ReadMembers, R.ReadNumber, R.SkipBlanks;
    var s := Decimal.Text(n) + rest;
    assert Decimal.IsDigit(s[0]);
    NumberBack(n, rest);
  }

  lemma FlagBack(b: bool, rest: string)
    ensures R.ReadValue(W.BoolText(b) + rest) == Some((R.Bool(b), rest))
  {
    hide R.ReadString, R.ReadItems, R.ReadMembers, R.ReadNumber, R.SkipBlanks;
    var s := W.BoolText(b) + rest;
    assert s[|W.BoolText(b)|..] == rest;
    if b { assert s[..4] == "true"; } else { assert s[..5] == "false" && s[0] == 'f'; }
  }

  /** Reading an array whose items are already known to read back. */
  lemma BracketsBack(inner: string, items: seq<R.Value>, rest: string)
    requires inner != "" && !R.Blank(inner[0])
    requires if inner[0] == ']' then items == [] && inner[1..] == rest
             else R.ReadItems(inner) == Some((items, rest))
    ensures R.ReadValue("[" + inner) == Some((R.Array(items), rest))
  {
    hide R.ReadString, R.ReadItems, R.ReadMembers, R.ReadNumber;
    assert ("[" + inner)[1..] == inner;
  }

  lemma BracesBack(inner: string, members: seq<R.Member>, rest: string)
    requires inner != "" && !R.Blank(inner[0])
    requires if inner[0] == '}' then members == [] && inner[1..] == rest
             else R.ReadMembers(inner) == Some((members, rest))
    ensures R.ReadValue("{" + inner) == Some((R.Object(members), rest))
  {
    hide R.ReadString, R.ReadItems, R.ReadMembers, R.ReadNumber;
    assert ("{" + inner)[1..] == inner;
  }

  lemma {:induction false} ValueBack(d: W.Doc, rest: string)
    requires !CarriesOn(rest)
    ensures R.ReadValue(W.Render(d) + rest) == Some((Meaning(d), rest))
    decreases d, 1
  {
    hide R.ReadValue, R.ReadItems, R.ReadMembers, W.Quoted, Decimal.Text, W.BoolText;
    match d
    case Text(t) => TextBack(t, rest);
    case Num(n) => NumBack(n, rest);
    case Flag(b) => FlagBack(b, rest);
    case Object(members) =>
      var inner := W.Join(W.MemberTexts(members)) + "}" + rest;
      assert W.Render(d) + rest == "{" + inner;
      if members == [] { assert inner == "}" + rest; } else { MembersBack(members, rest); }
      BracesBack(inner, MemberMeanings(members), rest);
    case Array(items) =>
      var inner := W.Join(W.ItemTexts(items)) + "]" + rest;
      assert W.Render(d) + rest == "[" + inner;
      if items == [] { assert inner == "]" + rest; } else { ItemsBack(items, rest); }
      BracketsBack(inner, Meanings(items), rest);
  }

  /** One step of reading items: a value, then a bracket or a comma. */
  lemma ItemStep(s: string, v: R.Value, next: string)
    requires R.ReadValue(s) == Some((v, next))
    requires next != "" && (next[0] == ',' ==> |next| > 1 && !R.Blank(next[1]))
    ensures next[0] == ']' ==> R.ReadItems(s) == Some(([v], next[1..]))
    ensures next[0] == ',' && R.ReadItems(next[1..]).Some? ==>
      R.ReadItems(s) == Some(([v] + R.ReadItems(next[1..]).value.0, R.ReadItems(next[1..]).value.1))
  {
    hide R.ReadValue;
  }

  lemma {:induction false} ItemsBack(items: seq<W.Doc>, rest: string)
    requires items != []
    ensures var s := W.Join(W.ItemTexts(items)) + "]" + rest;
            && s != "" && !R.Blank(s[0]) && s[0] != ']'
            && R.ReadItems(s) == Some((Meanings(items), rest))
    decreases items, 0
  {
    hide R.ReadValue, R.ReadItems, W.Render, W.Join, Meaning;
    var x, more := W.Render(items[0]), W.ItemTexts(items[1..]);
    var s := W.Join(W.ItemTexts(items)) + "]" + rest;
    JoinFront(x, more);
    Visible(items[0]);
    var next := if items[1..] == [] then "]" + rest else "," + (W.Join(more) + "]" + rest);
    assert s == x + next;
    ValueBack(items[0], next);
    if items[1..] != [] { ItemsBack(items[1..], rest); }
    ItemStep(s, Meaning(items[0]), next);
    if items[1..] == [] {
      assert next[1..] == rest;
      assert Meanings(items) == [Meaning(items[0])];
    } else {
      assert next[1..] == W.Join(more) + "]" + rest;
    }
  }

  /** One step of reading members: a key, a colon, a value, then a brace or a
      comma. */
  lemma MemberStep(s: string, k: string, text: string, v: R.Value, next: string)
    requires R.Starts(s, '\"') && R.ReadString(s[1..]) == Some((k, ":" + text))
    requires text != "" && !R.Blank(text[0]) && R.ReadValue(text) == Some((v, next))
    requires next != "" && (next[0] == ',' ==> |next| > 1 && !R.Blank(next[1]))
    ensures next[0] == '}' ==> R.ReadMembers(s) == Some(([R.Member(k, v)], next[1..]))
    ensures next[0] == ',' && R.ReadMembers(next[1..]).Some? ==>
      R.ReadMembers(s) == Some(([R.Member(k, v)] + R.ReadMembers(next[1..]).value.0, R.ReadMembers(next[1..]).value.1))
  {
    hide R.ReadValue, R.ReadString;
    assert (":" + text)[1..] == text;
  }

  lemma {:induction false} MembersBack(members: seq<W.Member>, rest: string)
    requires members != []
    ensures var s := W.Join(W.MemberTexts(members)) + "}" + rest;
            && s != "" && s[0] == '\"'
            && R.ReadMembers(s) == Some((MemberMeanings(members), rest))
    decreases members, 0
  {
    hide R.ReadValue, R.ReadString, R.ReadMembers, W.Render, W.Join, W.Quoted, Meaning;
    var m, more := members[0], W.MemberTexts(members[1..]);
    var value := W.Render(m.value);
    var s := W.Join(W.MemberTexts(members)) + "}" + rest;
    JoinFront(W.Quoted(m.key) + ":" + value, more);
    Visible(m.value);
    var next := if members[1..] == [] then "}" + rest else "," + (W.Join(more) + "}" + rest);
    assert s == W.Quoted(m.key) + (":" + (value + next));
    QuotedBack(m.key, ":" + (value + next));
    ValueBack(m.value, next);
    if members[1..] != [] { MembersBack(members[1..], rest); }
    MemberStep(s, m.key, value + next, Meaning(m.value), next);
    if members[1..] == [] {
      assert next[1..] == rest;
      assert MemberMeanings(members) == [R.Member(m.key, Meaning(m.value))];
    } else {
      assert next[1..] == W.Join(more) + "}" + rest;
    }
  }

  /** Every document parses back, whole, to what it means; the text of a number
      denotes the number. */
  lemma DocumentParsesBack(d: W.Doc)
    ensures R.Read(W.Render(d)) == Some(Meaning(d))
    ensures d.Num? ==> Decimal.Value(Decimal.Text(d.n)) == d.n
  {
    assert W.Render(d) + "" == W.Render(d);
    Visible(d);
    ValueBack(d, "");
    if d.Num? { Decimal.ValueOfText(d.n); }
  }

  /** Documents with different meanings never share a text. */
  lemma TextDeterminesMeaning(a: W.Doc, b: W.Doc)
    requires W.Render(a) == W.Render(b)
    ensures Meaning(a) == Meaning(b)
  {
    DocumentParsesBack(a);
    DocumentParsesBack(b);
  }

  // ---- The texts the writer's own examples give ----

  lemma EscapedOne(c: char)
    ensures W.Escaped([c]) == W.EscapeChar(c)
  {
    assert [c][..0] == "";
  }

  /** A quote, a backslash, a line feed, a tab and another control character in
      one string. */
  lemma EscapingExample()
    ensures W.Quoted("a\"b\\c\nd\te" + [1 as char] + "f") == "\"a\\\"b\\\\c\\nd\\te\\u0001f\""
  {
    hide W.Escaped, W.EscapeChar;
    var control := [1 as char];
    EscapedOne('f');
    EscapedFront(1 as char, "f");
    var s1 := control + "f";
    var s2 := ['d', '\t', 'e'] + s1;
    assert s2 == ['d'] + (['\t'] + (['e'] + s1));
    EscapedFront('e', s1);
    EscapedFront('\t', ['e'] + s1);
    EscapedFront('d', ['\t'] + (['e'] + s1));
    var s3 := ['b', '\\', 'c', '\n'] + s2;
    assert s3 == ['b'] + (['\\'] + (['c'] + (['\n'] + s2)));
    EscapedFront('\n', s2);
    EscapedFront('c', ['\n'] + s2);
    EscapedFront('\\', ['c'] + (['\n'] + s2));
    EscapedFront('b', ['\\'] + (['c'] + (['\n'] + s2)));
    EscapedFront('\"', s3);
    EscapedFront('a', ['\"'] + s3);
    assert ['a'] + (['\"'] + s3) == "a\"b\\c\nd\te" + control + "f";
    Escapes();
  }

  lemma Escapes()
    ensures W.EscapeChar('\"') == "\\\"" && W.EscapeChar('\\') == "\\\\" && W.EscapeChar('\n') == "\\n"
    ensures W.EscapeChar('\t') == "\\t" && W.EscapeChar('\r') == "\\r" && W.EscapeChar(1 as char) == "\\u0001"
    ensures W.EscapeChar(31 as char) == "\\u001f" && forall c: char | c >= ' ' && c != '\"' && c != '\\' :: W.EscapeChar(c) == [c]
  {
  }
}
