/** The admin UI's JSON writer: strings are escaped, objects and arrays are
    assembled by appending text. */
module JsonWriter {
  import Decimal

  /** What callers build with the writer. */
  datatype Doc =
    | Text(s: string)
    | Num(n: nat)
    | Flag(b: bool)
    | Object(members: seq<Member>)
    | Array(items: seq<Doc>)

  datatype Member = Member(key: string, value: Doc)

  const HEX: string := "0123456789abcdef"

  function EscapeChar(c: char): string {
    if c == '\"' then "\\\""
    else if c == '\\' then "\\\\"
    else if c == '\n' then "\\n"
    else if c == '\r' then "\\r"
    else if c == '\t' then "\\t"
    else if c as int < 0x20 then "\\u00" + [HEX[c as int / 16], HEX[c as int % 16]]
    else [c]
  }

  function Escaped(s: string): string {
    if s == "" then "" else Escaped(s[..|s| - 1]) + EscapeChar(s[|s| - 1])
  }

  function Quoted(s: string): string {
    "\"" + Escaped(s) + "\""
  }

  /** Pieces separated by commas. */
  function Join(parts: seq<string>): string {
    if parts == [] then ""
    else if |parts| == 1 then parts[0]
    else Join(parts[..|parts| - 1]) + "," + parts[|parts| - 1]
  }

  function BoolText(b: bool): string { if b then "true" else "false" }

  /** The text of a whole document. */
  function Render(d: Doc): string {
    match d
    case Text(s) => Quoted(s)
    case Num(n) => Decimal.Text(n)
    case Flag(b) => BoolText(b)
    case Object(members) => "{" + Join(MemberTexts(members)) + "}"
    case Array(items) => "[" + Join(ItemTexts(items)) + "]"
  }

  function MemberTexts(members: seq<Member>): (r: seq<string>)
    ensures |r| == |members|
  {
    if members == [] then []
    else [Quoted(members[0].key) + ":" + Render(members[0].value)] + MemberTexts(members[1..])
  }

  function ItemTexts(items: seq<Doc>): (r: seq<string>)
    ensures |r| == |items|
  {
    if items == [] then [] else [Render(items[0])] + ItemTexts(items[1..])
  }

  method PushChar(out: string, c: char) returns (r: string)
    ensures r == out + EscapeChar(c)
  {
    if c == '\"' { return out + "\\\""; }
    if c == '\\' { return out + "\\\\"; }
    if c == '\n' { return out + "\\n"; }
    if c == '\r' { return out + "\\r"; }
    if c == '\t' { return out + "\\t"; }
    if c as int < 0x20 { return out + ("\\u00" + [HEX[c as int / 16], HEX[c as int % 16]]); }
    return out + [c];
  }

  /** push_str: append `s` as a quoted string. */
  method PushStr(out: string, s: string) returns (r: string)
    ensures r == out + Quoted(s)
  {
    hide EscapeChar;
    r := out + "\"";
    for i := 0 to |s|
      invariant r == out + "\"" + Escaped(s[..i])
    {
      assert s[..i + 1][..i] == s[..i];
      r := PushChar(r, s[i]);
    }
    assert s[..|s|] == s;
    r := r + "\"";
  }

  /** An object under construction. */
  class Obj {
    var buf: string
    var first: bool
    ghost var members: seq<Member>

    ghost predicate Valid()
      reads this
    {
      buf == "{" + Join(MemberTexts(members)) && first == (members == [])
    }

    constructor ()
      ensures Valid() && members == []
    {
      buf, first, members := "{", true, [];
    }

    /** A separator if one is due, then the key. */
    method Key(k: string)
      requires Valid()
      modifies this
      ensures !first && members == old(members)
      ensures buf == "{" + (if members == [] then "" else Join(MemberTexts(members)) + ",") + Quoted(k) + ":"
    {
      if !first { buf := buf + ","; }
      first := false;
      buf := PushStr(buf, k);
      buf := buf + ":";
    }

    method Str(k: string, v: string)
      requires Valid()
      modifies this
      ensures Valid() && members == old(members) + [Member(k, Text(v))]
    {
      Key(k);
      buf := PushStr(buf, v);
      MemberAdded(members, Member(k, Text(v)));
      members := members + [Member(k, Text(v))];
    }

    method Number(k: string, v: nat)
      requires Valid()
      modifies this
      ensures Valid() && members == old(members) + [Member(k, Num(v))]
    {
      Key(k);
      buf := buf + Decimal.Text(v);
      MemberAdded(members, Member(k, Num(v)));
      members := members + [Member(k, Num(v))];
    }

    method Bool(k: string, v: bool)
      requires Valid()
      modifies this
      ensures Valid() && members == old(members) + [Member(k, Flag(v))]
    {
      Key(k);
      buf := buf + (if v then "true" else "false");
      MemberAdded(members, Member(k, Flag(v)));
      members := members + [Member(k, Flag(v))];
    }

    /** Insert a value that is already text. */
    method Raw(k: string, v: string, ghost value: Doc)
      requires Valid() && v == Render(value)
      modifies this
      ensures Valid() && members == old(members) + [Member(k, value)]
    {
      Key(k);
      buf := buf + v;
      MemberAdded(members, Member(k, value));
      members := members + [Member(k, value)];
    }

    method Done() returns (s: string)
      requires Valid()
      modifies this
      ensures s == Render(Object(old(members))) && buf == ""
    {
      s := buf;
      buf := "";
      s := s + "}";
    }
  }

  lemma {:induction false} MemberTextsAppend(members: seq<Member>, m: Member)
    ensures MemberTexts(members + [m]) == MemberTexts(members) + [Quoted(m.key) + ":" + Render(m.value)]
  {
    if members == [] {
      assert [m][1..] == [];
    } else {
      assert (members + [m])[1..] == members[1..] + [m];
      MemberTextsAppend(members[1..], m);
    }
  }

  lemma MemberAdded(members: seq<Member>, m: Member)
    ensures "{" + (if members == [] then "" else Join(MemberTexts(members)) + ",") + Quoted(m.key) + ":" + Render(m.value)
         == "{" + Join(MemberTexts(members + [m]))
  {
    MemberTextsAppend(members, m);
    var parts, last := MemberTexts(members), Quoted(m.key) + ":" + Render(m.value);
    assert (parts + [last])[..|parts|] == parts;
  }

  /** arr: already serialised values as an array. */
  method Arr(items: seq<string>, ghost docs: seq<Doc>) returns (out: string)
    requires items == ItemTexts(docs)
    ensures out == Render(Array(docs))
  {
    out := "[";
    for i := 0 to |items|
      invariant out == "[" + Join(items[..i])
    {
      assert items[..i + 1][..i] == items[..i];
      if i > 0 { out := out + ","; }
      out := out + items[i];
    }
    assert items[..|items|] == items;
    out := out + "]";
  }

  function Texts(items: seq<string>): seq<Doc> {
    seq(|items|, i requires 0 <= i < |items| => Text(items[i]))
  }

  lemma {:induction false} ItemTextsAppend(items: seq<Doc>, d: Doc)
    ensures ItemTexts(items + [d]) == ItemTexts(items) + [Render(d)]
  {
    if items == [] {
      assert [d][1..] == [];
    } else {
      assert (items + [d])[1..] == items[1..] + [d];
      ItemTextsAppend(items[1..], d);
    }
  }

  /** str_arr: strings as an array of JSON strings. */
  method StrArr(items: seq<string>) returns (out: string)
    ensures out == Render(Array(Texts(items)))
  {
    out := "[";
    for i := 0 to |items|
      invariant out == "[" + Join(ItemTexts(Texts(items[..i])))
    {
      assert Texts(items[..i + 1]) == Texts(items[..i]) + [Text(items[i])];
      ItemTextsAppend(Texts(items[..i]), Text(items[i]));
      ghost var parts := ItemTexts(Texts(items[..i]));
      assert (parts + [Quoted(items[i])])[..|parts|] == parts;
      if i > 0 { out := out + ","; }
      out := PushStr(out, items[i]);
    }
    assert items[..|items|] == items;
    out := out + "]";
  }
}
