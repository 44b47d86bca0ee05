/** JSON values, the compact text they are written as, and reading that text back. */
module JsonText {

  import opened Encoding
  import opened Wrappers

  /** Numbers are kept as the text JSON writes for them. Members keep the order they are listed in. */
  datatype Value =
    | Null
    | Bool(flag: bool)
    | Number(numeral: string)
    | Text(text: string)
    | List(items: Items)
    | Record(fields: Fields)

  datatype Items = NoItems | Item(head: Value, tail: Items)
  datatype Fields = NoFields | Field(key: string, value: Value, rest: Fields)

  predicate Has(f: Fields, key: string) {
    f.Field? && (f.key == key || Has(f.rest, key))
  }

  function Get(f: Fields, key: string): Value
    requires Has(f, key)
  {
    if f.key == key then f.value else Get(f.rest, key)
  }

  predicate NumberChar(c: char) {
    '0' <= c <= '9' || c == '-' || c == '+' || c == '.' || c == 'e' || c == 'E'
  }

  predicate Numeral(s: string) {
    s != [] && (s[0] == '-' || '0' <= s[0] <= '9') && forall i :: 0 <= i < |s| ==> NumberChar(s[i])
  }

  /** Numbers have a text, and no record names a member twice. */
  predicate WellFormed(v: Value) {
    match v
    case Number(n) => Numeral(n)
    case List(items) => WellFormedItems(items)
    case Record(fields) => WellFormedFields(fields)
    case _ => true
  }

  predicate WellFormedItems(t: Items) {
    t.Item? ==> WellFormed(t.head) && WellFormedItems(t.tail)
  }

  predicate WellFormedFields(f: Fields) {
    f.Field? ==> WellFormed(f.value) && !Has(f.rest, f.key) && WellFormedFields(f.rest)
  }

  // ---------------------------------------------------------------- writing

  function Escape(c: char): (r: string)
    ensures r != [] && r[0] != '"'
  {
    if c == '"' then ['\\', '"']
    else if c == '\\' then ['\\', '\\']
    else if c == '\U{8}' then ['\\', 'b']
    else if c == '\U{C}' then ['\\', 'f']
    else if c == '\n' then ['\\', 'n']
    else if c == '\r' then ['\\', 'r']
    else if c == '\t' then ['\\', 't']
    else if c < ' ' then ['\\', 'u', '0', '0', HexDigit(c as int / 16), HexDigit(c as int % 16)]
    else [c]
  }

  function Escaped(s: string): string {
    if s == [] then [] else Escape(s[0]) + Escaped(s[1..])
  }

  function Quoted(s: string): string {
    ['"'] + Escaped(s) + ['"']
  }

  function Write(v: Value): string {
    match v
    case Null => "null"
    case Bool(flag) => if flag then "true" else "false"
    case Number(n) => n
    case Text(s) => Quoted(s)
    case List(items) => ['['] + (if items.NoItems? then [']'] else Write(items.head) + WriteItems(items.tail))
    case Record(fields) => ['{'] + (if fields.NoFields? then ['}'] else WriteMember(fields) + WriteFields(fields.rest))
  }

  function WriteItems(t: Items): string {
    if t.NoItems? then [']'] else [','] + Write(t.head) + WriteItems(t.tail)
  }

  function WriteMember(f: Fields): string
    requires f.Field?
    decreases f, 0
  {
    Quoted(f.key) + [':'] + Write(f.value)
  }

  function WriteFields(f: Fields): string
    decreases f, 1
  {
    if f.NoFields? then ['}'] else [','] + WriteMember(f) + WriteFields(f.rest)
  }

  // ---------------------------------------------------------------- reading

  /** What was read, and the text after it. */
  datatype Reading<T> = Got(value: T, rest: string) | Bad

  function HexValue(c: char): Option<nat> {
    if '0' <= c <= '9' then Some(c as int - '0' as int)
    else if 'a' <= c <= 'f' then Some(c as int - 'a' as int + 10)
    else if 'A' <= c <= 'F' then Some(c as int - 'A' as int + 10)
    else None
  }

  /** Four hexadecimal digits naming a character that is no half of a surrogate pair. */
  function ReadCode(s: string): Reading<char> {
    if |s| < 4 then Bad
    else
      var a, b, c, d := HexValue(s[0]), HexValue(s[1]), HexValue(s[2]), HexValue(s[3]);
      if a.None? || b.None? || c.None? || d.None? then Bad
      else
        var n := a.value * 4096 + b.value * 256 + c.value * 16 + d.value;
        if n < 0xD800 || 0xE000 <= n < 0x10000 then Got(n as char, s[4..]) else Bad
  }

  function ReadEscape(s: string): Reading<char> {
    if s == [] then Bad
    else if s[0] == '"' || s[0] == '\\' || s[0] == '/' then Got(s[0], s[1..])
    else if s[0] == 'b' then Got('\U{8}', s[1..])
    else if s[0] == 'f' then Got('\U{C}', s[1..])
    else if s[0] == 'n' then Got('\n', s[1..])
    else if s[0] == 'r' then Got('\r', s[1..])
    else if s[0] == 't' then Got('\t', s[1..])
    else if s[0] == 'u' then ReadCode(s[1..])
    else Bad
  }

  function ReadChar(s: string): (r: Reading<char>)
    requires s != []
    ensures r.Got? ==> |r.rest| < |s|
  {
    if s[0] == '\\' then ReadEscape(s[1..])
    else if s[0] < ' ' then Bad
    else Got(s[0], s[1..])
  }

  /** The rest of a string after its opening quote. */
  function ReadString(s: string): (r: Reading<string>)
    ensures r.Got? ==> |r.rest| < |s|
    decreases |s|
  {
    if s == [] then Bad
    else if s[0] == '"' then Got([], s[1..])
    else
      var c := ReadChar(s);
      if c.Bad? then Bad
      else
        var r := ReadString(c.rest);
        if r.Bad? then Bad else Got([c.value] + r.value, r.rest)
  }

  function NumberEnd(s: string): (n: nat)
    ensures n <= |s|
  {
    if s == [] || !NumberChar(s[0]) then 0 else 1 + NumberEnd(s[1..])
  }

  predicate StartsWith(s: string, prefix: string) {
    |prefix| <= |s| && s[..|prefix|] == prefix
  }

  function ReadScalar(s: string): (r: Reading<Value>)
    ensures r.Got? ==> |r.rest| < |s|
  {
    if StartsWith(s, "null") then Got(Null, s[4..])
    else if StartsWith(s, "true") then Got(Bool(true), s[4..])
    else if StartsWith(s, "false") then Got(Bool(false), s[5..])
    else
      var n := NumberEnd(s);
      if n > 0 && Numeral(s[..n]) then Got(Number(s[..n]), s[n..]) else Bad
  }

  function ReadValue(s: string): (r: Reading<Value>)
    ensures r.Got? ==> |r.rest| < |s|
    decreases |s|, 0
  {
    if s == [] then Bad
    else if s[0] == '"' then
      var t := ReadString(s[1..]);
      if t.Bad? then Bad else Got(Text(t.value), t.rest)
    else if s[0] == '[' then
      if |s| > 1 && s[1] == ']' then Got(List(NoItems), s[2..])
      else
        var v := ReadValue(s[1..]);
        if v.Bad? then Bad
        else
          var t := ReadItems(v.rest);
          if t.Bad? then Bad else Got(List(Item(v.value, t.value)), t.rest)
    else if s[0] == '{' then
      if |s| > 1 && s[1] == '}' then Got(Record(NoFields), s[2..])
      else
        var m := ReadMember(s[1..]);
        if m.Bad? then Bad
        else
          var f := ReadFields(m.rest);
          if f.Bad? then Bad else Got(Record(Put(m.value, f.value)), f.rest)
    else ReadScalar(s)
  }

  function ReadItems(s: string): (r: Reading<Items>)
    ensures r.Got? ==> |r.rest| < |s|
    decreases |s|, 1
  {
    if s == [] then Bad
    else if s[0] == ']' then Got(NoItems, s[1..])
    else if s[0] == ',' then
      var v := ReadValue(s[1..]);
      if v.Bad? then Bad
      else
        var t := ReadItems(v.rest);
        if t.Bad? then Bad else Got(Item(v.value, t.value), t.rest)
    else Bad
  }

  datatype Member = Member(key: string, value: Value)

  /** A member listed again later counts with its later value. */
  function Put(m: Member, f: Fields): Fields {
    if Has(f, m.key) then f else Field(m.key, m.value, f)
  }

  function ReadMember(s: string): (r: Reading<Member>)
    ensures r.Got? ==> |r.rest| < |s|
    decreases |s|, 1
  {
    if s == [] || s[0] != '"' then Bad
    else
      var key := ReadString(s[1..]);
      if key.Bad? || key.rest == [] || key.rest[0] != ':' then Bad
      else
        var v := ReadValue(key.rest[1..]);
        if v.Bad? then Bad else Got(Member(key.value, v.value), v.rest)
  }

  function ReadFields(s: string): (r: Reading<Fields>)
    ensures r.Got? ==> |r.rest| < |s|
    decreases |s|, 2
  {
    if s == [] then Bad
    else if s[0] == '}' then Got(NoFields, s[1..])
    else if s[0] == ',' then
      var m := ReadMember(s[1..]);
      if m.Bad? then Bad
      else
        var f := ReadFields(m.rest);
        if f.Bad? then Bad else Got(Put(m.value, f.value), f.rest)
    else Bad
  }

  /** Reads a whole text as one value. */
  function Parse(s: string): Option<Value> {
    var r := ReadValue(s);
    if r.Got? && r.rest == [] then Some(r.value) else None
  }

  // ---------------------------------------------------------------- reading what was written

  lemma {:induction false} CharIsRead(c: char, r: string)
    ensures ReadChar(Escape(c) + r) == Got(c, r)
  {
    var s := Escape(c) + r;
    if Escape(c)[0] == '\\' {
      assert s[1..] == Escape(c)[1..] + r;
      if |Escape(c)| == 2 {
        assert s[1..][1..] == r;
      } else {
        CodeIsRead(c, r);
        assert s[1..] == ['u'] + (['0', '0', HexDigit(c as int / 16), HexDigit(c as int % 16)] + r);
        assert s[1..][1..] == ['0', '0', HexDigit(c as int / 16), HexDigit(c as int % 16)] + r;
      }
    } else {
      assert s[1..] == r;
    }
  }

  lemma {:induction false} CodeIsRead(c: char, r: string)
    requires c < ' '
    ensures ReadCode(['0', '0', HexDigit(c as int / 16), HexDigit(c as int % 16)] + r) == Got(c, r)
  {
    var n := c as int;
    HexIsRead(n / 16);
    HexIsRead(n % 16);
    var s := ['0', '0', HexDigit(n / 16), HexDigit(n % 16)] + r;
    assert s[4..] == r;
    assert n / 16 * 16 + n % 16 == n;
  }

  lemma {:induction false} HexIsRead(n: nat)
    requires n < 16
    ensures HexValue(HexDigit(n)) == Some(n)
  {
  }

  lemma {:induction false} StringIsRead(s: string, r: string)
    ensures ReadString(Escaped(s) + ['"'] + r) == Got(s, r)
    decreases |s|
  {
    hide Escape, ReadChar;
    if s == [] {
      assert (Escaped(s) + ['"'] + r)[1..] == r;
    } else {
      var rest := Escaped(s[1..]) + ['"'] + r;
      assert Escaped(s) + ['"'] + r == Escape(s[0]) + rest;
      CharIsRead(s[0], rest);
      StringIsRead(s[1..], r);
      assert [s[0]] + s[1..] == s;
    }
  }

  lemma {:induction false} QuotedIsRead(s: string, r: string)
    ensures Quoted(s) + r != [] && (Quoted(s) + r)[0] == '"'
    ensures ReadString((Quoted(s) + r)[1..]) == Got(s, r)
  {
    hide Escaped, ReadString;
    StringIsRead(s, r);
    assert (Quoted(s) + r)[1..] == Escaped(s) + ['"'] + r;
  }

  /** What may follow a value: nothing, or a character that ends it. */
  predicate Stops(r: string) {
    r == [] || !NumberChar(r[0])
  }

  lemma {:induction false} NumberEndIs(n: string, r: string)
    requires (forall i :: 0 <= i < |n| ==> NumberChar(n[i])) && Stops(r)
    ensures NumberEnd(n + r) == |n|
  {
    if n == [] {
      assert n + r == r;
    } else {
      assert (n + r)[1..] == n[1..] + r;
      NumberEndIs(n[1..], r);
    }
  }

  lemma {:induction false} NumberIsRead(n: string, r: string)
    requires Numeral(n) && Stops(r)
    ensures ReadValue(n + r) == Got(Number(n), r)
  {
    NumberEndIs(n, r);
    var s := n + r;
    assert s[..|n|] == n && s[|n|..] == r && s[0] == n[0];
    NoWord(s);
    hide NumberEnd, StartsWith, NumberChar;
  }

  lemma {:induction false} NoWord(s: string)
    requires s != [] && (s[0] == '-' || '0' <= s[0] <= '9')
    ensures !StartsWith(s, "null") && !StartsWith(s, "true") && !StartsWith(s, "false")
  {
    assert "null"[0] == 'n' && "true"[0] == 't' && "false"[0] == 'f';
    hide StartsWith;
    FirstOf(s, "null");
    FirstOf(s, "true");
    FirstOf(s, "false");
  }

  lemma {:induction false} FirstOf(s: string, word: string)
    requires s != [] && word != []
    ensures StartsWith(s, word) ==> s[0] == word[0]
  {
    if StartsWith(s, word) {
      assert s[..|word|][0] == s[0];
    }
  }

  lemma {:induction false} WordIsRead(v: Value, r: string)
    requires v.Null? || v.Bool?
    ensures ReadValue(Write(v) + r) == Got(v, r)
  {
    var s := Write(v) + r;
    assert s[..|Write(v)|] == Write(v) && s[|Write(v)|..] == r;
    assert "null"[0] == 'n' && "true"[0] == 't' && "false"[0] == 'f';
    assert StartsWith(s, "null") ==> s[..4][0] == 'n';
    assert StartsWith(s, "true") ==> s[..4][0] == 't';
  }

  /** Reading gives back what was written, whatever ends it. */
  lemma {:induction false} ValueIsRead(v: Value, r: string)
    requires WellFormed(v) && Stops(r)
    ensures ReadValue(Write(v) + r) == Got(v, r)
    decreases v, 1
  {
    hide ReadValue, Write, Quoted, Stops, Numeral;
    match v {
      case Number(n) =>
        assert Write(v) == n && Numeral(n) by { WriteNumber(v); }
        NumberIsRead(n, r);
      case Text(s) => TextIsRead(s, r);
      case List(items) => ListIsRead(items, r);
      case Record(fields) => RecordIsRead(fields, r);
      case _ => WordIsRead(v, r);
    }
  }

  lemma {:induction false} WriteNumber(v: Value)
    requires WellFormed(v) && v.Number?
    ensures Write(v) == v.numeral && Numeral(v.numeral)
  {
    hide Numeral;
  }

  lemma {:induction false} TextIsRead(s: string, r: string)
    ensures ReadValue(Write(Text(s)) + r) == Got(Text(s), r)
  {
    hide Quoted, ReadString;
    QuotedIsRead(s, r);
  }

  lemma {:induction false} ListIsRead(items: Items, r: string)
    requires WellFormedItems(items) && Stops(r)
    ensures ReadValue(Write(List(items)) + r) == Got(List(items), r)
    decreases items, 2
  {
    hide WriteItems, ReadItems, Stops;
    var s := Write(List(items)) + r;
    if items.NoItems? {
      assert s == ['[', ']'] + r;
      assert s[2..] == r;
    } else {
      var after := WriteItems(items.tail) + r;
      assert s[1..] == Write(items.head) + after;
      ItemsAreRead(items.tail, r);
      ValueIsRead(items.head, after);
      WriteStart(items.head, after);
      hide Write;
    }
  }

  /** No value starts with the character that closes a list or a record. */
  lemma {:induction false} WriteStart(v: Value, r: string)
    requires WellFormed(v)
    ensures Write(v) + r != [] && (Write(v) + r)[0] != ']'
  {
    hide WriteItems, WriteFields, WriteMember, Escaped;
    assert "null"[0] == 'n' && "true"[0] == 't' && "false"[0] == 'f';
    assert Write(v) != [] && Write(v)[0] != ']';
  }

  lemma {:induction false} ItemsAreRead(t: Items, r: string)
    requires WellFormedItems(t)
    ensures Stops(WriteItems(t) + r)
    ensures ReadItems(WriteItems(t) + r) == Got(t, r)
    decreases t, 3
  {
    hide Write, ReadValue;
    var s := WriteItems(t) + r;
    if t.NoItems? {
      assert s[1..] == r;
    } else {
      var after := WriteItems(t.tail) + r;
      assert s[1..] == Write(t.head) + after;
      ItemsAreRead(t.tail, r);
      ValueIsRead(t.head, after);
    }
  }

  lemma {:induction false} MemberIsRead(f: Fields, r: string)
    requires f.Field? && WellFormed(f.value) && Stops(r)
    ensures ReadMember(WriteMember(f) + r) == Got(Member(f.key, f.value), r)
    ensures WriteMember(f) != [] && WriteMember(f)[0] == '"'
    decreases f, 1
  {
    hide Write, ReadValue, ReadString, Stops;
    var after := [':'] + Write(f.value) + r;
    assert WriteMember(f) + r == Quoted(f.key) + after;
    QuotedIsRead(f.key, after);
    assert after[1..] == Write(f.value) + r;
    ValueIsRead(f.value, r);
    hide Escaped;
  }

  lemma {:induction false} RecordIsRead(fields: Fields, r: string)
    requires WellFormedFields(fields) && Stops(r)
    ensures ReadValue(Write(Record(fields)) + r) == Got(Record(fields), r)
    decreases fields, 2
  {
    hide WriteFields, ReadFields, WriteMember, ReadMember, Stops;
    var s := Write(Record(fields)) + r;
    if fields.NoFields? {
      assert s == ['{', '}'] + r;
      assert s[2..] == r;
    } else {
      var after := WriteFields(fields.rest) + r;
      assert s[1..] == WriteMember(fields) + after;
      FieldsAreRead(fields.rest, r);
      MemberIsRead(fields, after);
    }
  }

  lemma {:induction false} FieldsAreRead(f: Fields, r: string)
    requires WellFormedFields(f)
    ensures Stops(WriteFields(f) + r)
    ensures ReadFields(WriteFields(f) + r) == Got(f, r)
    decreases f, 3
  {
    hide WriteMember, ReadMember;
    var s := WriteFields(f) + r;
    if f.NoFields? {
      assert s[1..] == r;
    } else {
      var after := WriteFields(f.rest) + r;
      assert s[1..] == WriteMember(f) + after;
      FieldsAreRead(f.rest, r);
      MemberIsRead(f, after);
    }
  }

  /** Parsing inverts writing; so two values with one text are one value. */
  lemma {:induction false} ParseInvertsWrite(v: Value)
    requires WellFormed(v)
    ensures Parse(Write(v)) == Some(v)
  {
    hide ReadValue, Write, WellFormed;
    ValueIsRead(v, []);
    assert Write(v) + [] == Write(v);
  }
}
