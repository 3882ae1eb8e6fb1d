/** JSON values and the number of bytes encoding/json writes for them. */
module Json {
  import opened Text
  import Orders

  /** A decoded value. The fields of an object stand in the order in which their names are written out. */
  datatype Value =
    | Null
    | Bool(b: bool)
    | Number(digits: string)
    | Str(s: string)
    | Arr(items: seq<Value>)
    | Obj(fields: seq<Field>)

  datatype Field = Field(name: string, value: Value)

  /** Bytes of one character inside quotes, with HTML escaping as json.Marshal does it. */
  function CharSize(c: char): (n: nat)
    ensures 1 <= n <= 6
  {
    if c == '\"' || c == '\\' || c == '\n' || c == '\r' || c == '\t' || c == '\U{8}' || c == '\U{C}' then 2
    else if c < ' ' || c == '<' || c == '>' || c == '&' || c == '\U{2028}' || c == '\U{2029}' then 6
    else if c < '\U{80}' then 1
    else if c < '\U{800}' then 2
    else if c < '\U{10000}' then 3
    else 4
  }

  function CharsSize(s: string): nat {
    if s == "" then 0 else CharSize(s[0]) + CharsSize(s[1..])
  }

  function StrSize(s: string): nat {
    2 + CharsSize(s)
  }

  /** Two brackets and n - 1 commas around n parts. */
  function Bracketed(parts: nat, n: nat): nat {
    2 + parts + (if n == 0 then 0 else n - 1)
  }

  function Size(v: Value): nat
    decreases v
  {
    match v
    case Null => 4
    case Bool(b) => if b then 4 else 5
    case Number(digits) => |digits|
    case Str(s) => StrSize(s)
    case Arr(items) => Bracketed(ItemsSize(items), |items|)
    case Obj(fields) => Bracketed(FieldsSize(fields), |fields|)
  }

  function ItemsSize(items: seq<Value>): nat
    decreases items
  {
    if items == [] then 0 else Size(items[0]) + ItemsSize(items[1..])
  }

  function FieldSize(f: Field): nat
    decreases f
  {
    StrSize(f.name) + 1 + Size(f.value)
  }

  function FieldsSize(fields: seq<Field>): nat
    decreases fields
  {
    if fields == [] then 0 else FieldSize(fields[0]) + FieldsSize(fields[1..])
  }

  function Lookup(fields: seq<Field>, name: string): Option<Value> {
    if fields == [] then None
    else if fields[0].name == name then Some(fields[0].value)
    else Lookup(fields[1..], name)
  }

  /** Overwrites a field that is there. */
  function Replace(fields: seq<Field>, name: string, v: Value): seq<Field> {
    if fields == [] then []
    else if fields[0].name == name then [Field(name, v)] + fields[1..]
    else [fields[0]] + Replace(fields[1..], name, v)
  }

  function Names(fields: seq<Field>): (r: seq<string>)
    ensures |r| == |fields|
  {
    if fields == [] then [] else [fields[0].name] + Names(fields[1..])
  }

  function Strs(names: seq<string>): (r: seq<Value>)
    ensures |r| == |names|
  {
    if names == [] then [] else [Str(names[0])] + Strs(names[1..])
  }

  // ---------- sizes of changed values ----------

  lemma BracketedMonotone(a: nat, m: nat, b: nat, n: nat)
    requires a <= b && m <= n
    ensures Bracketed(a, m) <= Bracketed(b, n)
  {
  }

  lemma {:induction false} FieldsSizeAppend(a: seq<Field>, b: seq<Field>)
    ensures FieldsSize(a + b) == FieldsSize(a) + FieldsSize(b)
  {
    if a == [] {
      assert a + b == b;
    } else {
      assert (a + b)[1..] == a[1..] + b;
      FieldsSizeAppend(a[1..], b);
    }
  }

  lemma {:induction false} ItemsShrink(a: seq<Value>, b: seq<Value>)
    requires |a| == |b| && forall i :: 0 <= i < |a| ==> Size(a[i]) <= Size(b[i])
    ensures ItemsSize(a) <= ItemsSize(b) && Size(Arr(a)) <= Size(Arr(b))
  {
    if a != [] { ItemsShrink(a[1..], b[1..]); }
  }

  /** A beginning of a text is not longer than the text. */
  lemma {:induction false} PrefixShrinks(s: string, n: nat)
    requires n <= |s|
    ensures StrSize(s[..n]) <= StrSize(s)
  {
    if n > 0 {
      assert s[..n][1..] == s[1..][..n - 1];
      PrefixShrinks(s[1..], n - 1);
    }
  }

  /** Overwriting one field changes the size by the difference of the two values. */
  lemma {:induction false} ReplaceSize(fields: seq<Field>, name: string, v: Value)
    requires Lookup(fields, name).Some?
    ensures |Replace(fields, name, v)| == |fields|
    ensures FieldsSize(Replace(fields, name, v)) + Size(Lookup(fields, name).value) == FieldsSize(fields) + Size(v)
  {
    var r := Replace(fields, name, v);
    if fields[0].name == name {
      assert r[1..] == fields[1..];
    } else {
      ReplaceSize(fields[1..], name, v);
      assert r[1..] == Replace(fields[1..], name, v);
    }
  }

  lemma {:induction false} ReplaceLookup(fields: seq<Field>, name: string, v: Value, other: string)
    ensures Lookup(Replace(fields, name, v), other) ==
            if other == name && Lookup(fields, name).Some? then Some(v) else Lookup(fields, other)
  {
    if fields != [] && fields[0].name != name {
      ReplaceLookup(fields[1..], name, v, other);
      assert Replace(fields, name, v)[1..] == Replace(fields[1..], name, v);
    } else if fields != [] {
      assert Replace(fields, name, v)[1..] == fields[1..];
    }
  }

  lemma {:induction false} LookupSize(fields: seq<Field>, name: string)
    requires Lookup(fields, name).Some?
    ensures fields != []
    ensures StrSize(name) + 1 + Size(Lookup(fields, name).value) <= FieldsSize(fields)
  {
    if fields[0].name != name { LookupSize(fields[1..], name); }
  }

  lemma {:induction false} NamesShrink(fields: seq<Field>)
    ensures ItemsSize(Strs(Names(fields))) <= FieldsSize(fields)
  {
    if fields != [] {
      NamesShrink(fields[1..]);
      assert Strs(Names(fields))[1..] == Strs(Names(fields[1..]));
    }
  }

  /** The size of a list of names does not depend on their order. */
  lemma NamesOrderDoesNotMatter(a: seq<string>, b: seq<string>)
    requires multiset(a) == multiset(b)
    ensures Size(Arr(Strs(a))) == Size(Arr(Strs(b)))
  {
    Orders.PermutationMembers(a, b);
    var step := (n: int, s: string) => n + StrSize(s);
    assert Orders.Commutes(step);
    SizeIsFold(a, 0);
    SizeIsFold(b, 0);
    Orders.FoldIgnoresOrder(step, 0, a, b);
  }

  lemma {:induction false} SizeIsFold(a: seq<string>, acc: int)
    ensures Orders.Fold((n: int, s: string) => n + StrSize(s), acc, a) == acc + ItemsSize(Strs(a))
  {
    if a != [] {
      SizeIsFold(a[1..], acc + StrSize(a[0]));
      assert Strs(a)[1..] == Strs(a[1..]);
    }
  }

  // ---------- the bytes themselves ----------

  type Byte = b | 0 <= b < 256

  /** A code point in UTF-8 (section 3 of RFC 3629). */
  function Utf8(c: char): seq<Byte> {
    var n := c as int;
    if n < 0x80 then [n]
    else if n < 0x800 then [0xC0 + n / 64, 0x80 + n % 64]
    else if n < 0x10000 then [0xE0 + n / 4096, 0x80 + n / 64 % 64, 0x80 + n % 64]
    else [0xF0 + n / 262144, 0x80 + n / 4096 % 64, 0x80 + n / 64 % 64, 0x80 + n % 64]
  }

  function HexDigit(d: nat): Byte
    requires d < 16
  {
    "0123456789abcdef"[d] as int
  }

  /** One character inside quotes: a short escape, a \\u escape or UTF-8. */
  function CharBytes(c: char): seq<Byte> {
    var n := c as int;
    if c == '\"' || c == '\\' then [92, n]
    else if c == '\n' then [92, 110] else if c == '\r' then [92, 114] else if c == '\t' then [92, 116]
    else if n == 8 then [92, 98] else if n == 12 then [92, 102]
    else if n < 32 || c == '<' || c == '>' || c == '&' || n == 0x2028 || n == 0x2029 then
      [92, 117, HexDigit(n / 4096 % 16), HexDigit(n / 256 % 16), HexDigit(n / 16 % 16), HexDigit(n % 16)]
    else Utf8(c)
  }

  function CharsBytes(s: string): seq<Byte> {
    if s == "" then [] else CharBytes(s[0]) + CharsBytes(s[1..])
  }

  function StrBytes(s: string): seq<Byte> {
    Ascii("\"") + CharsBytes(s) + Ascii("\"")
  }

  function Ascii(s: string): (r: seq<Byte>)
    requires forall i :: 0 <= i < |s| ==> s[i] < '\U{80}'
    ensures |r| == |s|
  {
    seq(|s|, i requires 0 <= i < |s| => s[i] as int)
  }

  /** Numbers are ASCII text. */
  predicate AsciiNumbers(v: Value)
    decreases v
  {
    match v
    case Number(digits) => forall i :: 0 <= i < |digits| ==> digits[i] < '\U{80}'
    case Arr(items) => forall i :: 0 <= i < |items| ==> AsciiNumbers(items[i])
    case Obj(fields) => forall i :: 0 <= i < |fields| ==> AsciiNumbers(fields[i].value)
    case _ => true
  }

  /** json.Marshal: what is written for a value. */
  function Marshal(v: Value): seq<Byte>
    requires AsciiNumbers(v)
    decreases v
  {
    match v
    case Null => Ascii("null")
    case Bool(b) => if b then Ascii("true") else Ascii("false")
    case Number(digits) => Ascii(digits)
    case Str(s) => StrBytes(s)
    case Arr(items) => Ascii("[") + MarshalItems(items) + Ascii("]")
    case Obj(fields) => Ascii("{") + MarshalFields(fields) + Ascii("}")
  }

  function MarshalItems(items: seq<Value>): seq<Byte>
    requires forall i :: 0 <= i < |items| ==> AsciiNumbers(items[i])
    decreases items
  {
    if items == [] then []
    else Marshal(items[0]) + (if |items| == 1 then [] else Ascii(",")) + MarshalItems(items[1..])
  }

  function MarshalFields(fields: seq<Field>): seq<Byte>
    requires forall i :: 0 <= i < |fields| ==> AsciiNumbers(fields[i].value)
    decreases fields
  {
    if fields == [] then []
    else
      StrBytes(fields[0].name) + Ascii(":") + Marshal(fields[0].value) +
      (if |fields| == 1 then [] else Ascii(",")) + MarshalFields(fields[1..])
  }

  /** A lead byte and the six low bits of each byte behind it, taken together. */
  function CodePoint(lead: int, rest: seq<Byte>): int {
    if rest == [] then lead else CodePoint(lead, rest[..|rest| - 1]) * 64 + rest[|rest| - 1] - 0x80
  }

  /** The bytes say the character: the lead byte tells their number, and the bits together are the code point. */
  lemma Utf8Means(c: char)
    ensures var b, n := Utf8(c), |Utf8(c)|;
            && 1 <= n <= 4 && CodePoint(b[0] - (match n case 1 => 0 case 2 => 0xC0 case 3 => 0xE0 case _ => 0xF0), b[1..]) == c as int
            && (n == 1 ==> b[0] < 0x80) && (n == 2 ==> 0xC0 <= b[0] < 0xE0) && (n == 3 ==> 0xE0 <= b[0] < 0xF0)
            && (n == 4 ==> 0xF0 <= b[0] < 0xF8) && forall k :: 1 <= k < n ==> 0x80 <= b[k] < 0xC0
  {
    var n := c as int;
    var b := Utf8(c);
    SixBits(n);
    SixBits(n / 64);
    SixBits(n / 4096);
    if |b| == 2 {
      assert b[1..] == [] + [b[1]];
      OneByteMore(b[0] - 0xC0, [], b[1]);
    } else if |b| == 3 {
      assert b[1..] == ([] + [b[1]]) + [b[2]];
      OneByteMore(b[0] - 0xE0, [], b[1]);
      OneByteMore(b[0] - 0xE0, [] + [b[1]], b[2]);
    } else if |b| == 4 {
      assert b[1..] == (([] + [b[1]]) + [b[2]]) + [b[3]];
      OneByteMore(b[0] - 0xF0, [], b[1]);
      OneByteMore(b[0] - 0xF0, [] + [b[1]], b[2]);
      OneByteMore(b[0] - 0xF0, ([] + [b[1]]) + [b[2]], b[3]);
    }
  }

  lemma OneByteMore(lead: int, rest: seq<Byte>, b: Byte)
    ensures CodePoint(lead, rest + [b]) == CodePoint(lead, rest) * 64 + b - 0x80
  {
    assert (rest + [b])[..|rest|] == rest;
  }

  lemma SixBits(n: nat)
    ensures n == n / 64 * 64 + n % 64 && n / 64 / 64 == n / 4096 && n / 4096 / 64 == n / 262144
  {
  }

  lemma {:induction false} CharsLength(s: string)
    ensures |CharsBytes(s)| == CharsSize(s)
  {
    if s != "" { CharsLength(s[1..]); }
  }

  /** Size counts the bytes that are written. */
  lemma {:induction false} SizeIsLength(v: Value)
    requires AsciiNumbers(v)
    ensures |Marshal(v)| == Size(v)
    decreases v
  {
    match v
    case Str(s) => CharsLength(s);
    case Arr(items) => ItemsLength(items);
    case Obj(fields) => FieldsLength(fields);
    case _ =>
  }

  lemma {:induction false} ItemsLength(items: seq<Value>)
    requires forall i :: 0 <= i < |items| ==> AsciiNumbers(items[i])
    ensures |MarshalItems(items)| == ItemsSize(items) + if items == [] then 0 else |items| - 1
    decreases items
  {
    if items != [] {
      SizeIsLength(items[0]);
      ItemsLength(items[1..]);
    }
  }

  lemma {:induction false} FieldsLength(fields: seq<Field>)
    requires forall i :: 0 <= i < |fields| ==> AsciiNumbers(fields[i].value)
    ensures |MarshalFields(fields)| == FieldsSize(fields) + if fields == [] then 0 else |fields| - 1
    decreases fields
  {
    if fields != [] {
      CharsLength(fields[0].name);
      SizeIsLength(fields[0].value);
      FieldsLength(fields[1..]);
    }
  }
}
