/**
 Marshalling integers and strings behind a format such as "%ul%s". Every integer has a slot of eight
 times its size in bytes and uses the first bytes of it.
 */
module Marshal {
  import opened Text
  import opened Decimal
  import opened Primitives
  import Completion

  /**
   A part of the format, with its argument. Blanks are characters that are no specifiers, such as white
   space; `marked` strings have the ignored modifier u.
   */
  datatype Item =
    | Blank(c: char)
    | Str(marked: bool, s: string)
    | Num(letter: char, signed: bool, value: int)

  predicate IsNumber(c: char) {
    c == 'b' || c == 'w' || c == 'l' || c == 'L'
  }

  predicate IsFloat(c: char) {
    c == 'f' || c == 'F'
  }

  function Width(letter: char): (n: nat)
    ensures 1 <= n <= 8
  {
    match letter
    case 'b' => 1
    case 'w' => 2
    case 'l' => 4
    case _ => 8
  }

  predicate ValidItem(i: Item) {
    match i
    case Blank(c) => c != '\0' && c != '%' && c != 's' && !IsNumber(c) && !IsFloat(c)
    case Str(_, s) => '\0' !in s
    case Num(letter, signed, v) =>
      && IsNumber(letter)
      && if signed then 0 <= 2 * v + Pow256(Width(letter)) && 2 * v < Pow256(Width(letter)) else 0 <= v < Pow256(Width(letter))
  }

  predicate AllValid(items: seq<Item>) {
    forall i :: i in items ==> ValidItem(i)
  }

  function Spec(i: Item): (s: string)
    ensures s != []
  {
    match i
    case Blank(c) => [c]
    case Str(marked, _) => if marked then "%us" else "%s"
    case Num(letter, signed, _) => if signed then ['%', letter] else ['%', 'u', letter]
  }

  function Format(items: seq<Item>): (s: string) {
    if items == [] then [] else Spec(items[0]) + Format(items[1..])
  }

  function SizeOf(i: Item): (n: nat)
    requires ValidItem(i)
  {
    match i
    case Blank(_) => 0
    case Str(_, s) => |s| + 1
    case Num(letter, _, _) => 8 * Width(letter)
  }

  function Size(items: seq<Item>): (n: nat)
    requires AllValid(items)
  {
    if items == [] then 0 else Size(items[..|items| - 1]) + SizeOf(items[|items| - 1])
  }

  /** Two's complement. */
  function Encoded(v: int, width: nat): (u: nat)
    requires 0 <= 2 * v + Pow256(width)
  {
    if v < 0 then v + Pow256(width) else v
  }

  function Decoded(u: nat, width: nat, signed: bool): (v: int) {
    if signed && Pow256(width) <= 2 * u then u - Pow256(width) else u
  }

  /** The bytes of an item. */
  function Image(i: Item): (s: string)
    requires ValidItem(i)
  {
    match i
    case Blank(_) => []
    case Str(_, s) => s + ['\0']
    case Num(letter, _, v) => SetU(Encoded(v, Width(letter)), Width(letter))
  }

  predicate Slot(mem: string, at: nat, i: Item)
    requires ValidItem(i)
  {
    at + SizeOf(i) <= |mem| && Image(i) == mem[at..at + |Image(i)|]
  }

  predicate SlotAt(mem: string, items: seq<Item>, k: nat)
    requires AllValid(items) && k < |items|
  {
    Slot(mem, Size(items[..k]), items[k])
  }

  /** The first a items lie in memory one after the other. */
  ghost predicate Laid(mem: string, items: seq<Item>, a: nat)
    requires AllValid(items) && a <= |items|
  {
    forall k: nat :: k < a ==> SlotAt(mem, items, k)
  }

  lemma SizeStep(items: seq<Item>, k: nat)
    requires AllValid(items) && k < |items|
    ensures Size(items[..k + 1]) == Size(items[..k]) + SizeOf(items[k])
  {
    assert items[..k + 1][..k] == items[..k];
  }

  lemma {:induction false} SizeGrows(items: seq<Item>, j: nat, k: nat)
    requires AllValid(items) && j <= k <= |items|
    ensures Size(items[..j]) <= Size(items[..k])
    decreases k
  {
    if j < k {
      SizeGrows(items, j, k - 1);
      SizeStep(items, k - 1);
    }
  }

  /** The four integer specifiers: 8, 16, 32 and 64 bits, each in a slot of that many bytes. */
  lemma IntegerSpecifiers(v: int)
    ensures ValidItem(Num('b', true, v)) <==> -0x80 <= v < 0x80
    ensures ValidItem(Num('b', false, v)) <==> 0 <= v < 0x100
    ensures ValidItem(Num('w', true, v)) <==> -0x8000 <= v < 0x8000
    ensures ValidItem(Num('w', false, v)) <==> 0 <= v < 0x1_0000
    ensures ValidItem(Num('l', true, v)) <==> -0x8000_0000 <= v < 0x8000_0000
    ensures ValidItem(Num('l', false, v)) <==> 0 <= v < 0x1_0000_0000
    ensures ValidItem(Num('L', true, v)) <==> -0x8000_0000_0000_0000 <= v < 0x8000_0000_0000_0000
    ensures ValidItem(Num('L', false, v)) <==> 0 <= v < 0x1_0000_0000_0000_0000
    ensures ValidItem(Num('b', true, 0)) && SizeOf(Num('b', true, 0)) == 8
    ensures ValidItem(Num('w', true, 0)) && SizeOf(Num('w', true, 0)) == 16
    ensures ValidItem(Num('l', true, 0)) && SizeOf(Num('l', true, 0)) == 32
    ensures ValidItem(Num('L', true, 0)) && SizeOf(Num('L', true, 0)) == 64
  {
    assert Pow256(1) == 0x100 && Pow256(2) == 0x1_0000;
    assert Pow256(3) == 0x100_0000 && Pow256(4) == 0x1_0000_0000;
    assert Pow256(5) == 0x100_0000_0000 && Pow256(6) == 0x1_0000_0000_0000;
    assert Pow256(7) == 0x100_0000_0000_0000 && Pow256(8) == 0x1_0000_0000_0000_0000;
  }

  /** Reading back an integer that was stored, of either sign. */
  lemma DecodeEncode(i: Item)
    requires ValidItem(i) && i.Num?
    ensures var w := Width(i.letter);
            Decoded(GetU(SetU(Encoded(i.value, w), w)), w, i.signed) == i.value
  {
    GetSet(Encoded(i.value, Width(i.letter)), Width(i.letter));
  }

  // ---------------------------------------------------------------- the format string

  /** Over the '%' and the modifier, if they are there: the new sign and the specifier's place. */
  function NextSpec(format: string, f: nat, unsigned: bool): (r: (bool, nat))
    requires f < |format|
    ensures f <= r.1 <= |format|
  {
    if format[f] != '%' then (unsigned, f)
    else if f + 1 < |format| && format[f + 1] == 'u' then (true, f + 2)
    else (false, f + 1)
  }

  /** The specifier character c, with that sign, announces the item. */
  predicate Announces(c: char, unsigned: bool, item: Item) {
    match item
    case Blank(b) => c == b
    case Str(_, _) => c == 's'
    case Num(letter, signed, _) => c == letter && unsigned == !signed
  }

  lemma SpecAt(format: string, f: nat, unsigned: bool, items: seq<Item>, a: nat)
    requires AllValid(items) && a < |items| && f <= |format| && format[f..] == Format(items[a..])
    ensures f < |format|
    ensures var (u, g) := NextSpec(format, f, unsigned);
            g < |format| && format[g + 1..] == Format(items[a + 1..]) && Announces(format[g], u, items[a])
  {
    var spec := Spec(items[a]);
    assert items[a] in items && items[a..][1..] == items[a + 1..];
    assert format[f..] == spec + Format(items[a + 1..]);
    assert forall k :: 0 <= k < |spec| ==> format[f + k] == format[f..][k] == spec[k];
    assert format[f + |spec|..] == format[f..][|spec|..];
  }

  lemma StartOf(items: seq<Item>, mem: string)
    requires AllValid(items)
    ensures items[0..] == items && Size(items[..0]) == 0 && Laid(mem, items, 0)
  {
  }

  lemma FormatLeft(items: seq<Item>, a: nat)
    requires a <= |items|
    ensures Format(items[a..]) == [] <==> a == |items|
  {
  }

  // ---------------------------------------------------------------- the three functions

  lemma WrapAdd(x: nat, y: nat)
    ensures (x % U32 + y) % U32 == (x + y) % U32
  {
    var k := (x % U32 + y) / U32;
    assert x + y == U32 * (x / U32 + k) + (x % U32 + y) % U32;
  }

  method VMarshalSize(format: string, items: seq<Item>) returns (size: nat)
    requires AllValid(items) && format == Format(items)
    ensures size == Size(items) % U32
  {
    hide Size, Format;
    size := 0;
    var f, a := 0, 0;
    StartOf(items, []);
    assert format[0..] == format;
    while f < |format|
      invariant f <= |format| && a <= |items| && format[f..] == Format(items[a..])
      invariant size == Size(items[..a]) % U32
      decreases |items| - a
    {
      FormatLeft(items, a);
      SpecAt(format, f, true, items, a);
      var (_, g) := NextSpec(format, f, true);
      SizeStep(items, a);
      WrapAdd(Size(items[..a]), SizeOf(items[a]));
      if format[g] == 's' {
        size := (size + |items[a].s| + 1) % U32;
      } else if IsNumber(format[g]) {
        size := (size + 8 * Width(format[g])) % U32;
      }
      f, a := g + 1, a + 1;
    }
    FormatLeft(items, a);
    assert items[..a] == items;
  }

  /** What lies before the new item stays laid, what lies behind stays as it was. */
  lemma LaidMore(mem: string, items: seq<Item>, a: nat, mem': string)
    requires AllValid(items) && a < |items| && Laid(mem, items, a)
    requires Size(items[..a + 1]) <= |mem| && Size(items[..a]) + |Image(items[a])| <= |mem|
    requires mem' == Splice(mem, Size(items[..a]), Image(items[a]))
    ensures Laid(mem', items, a + 1)
    ensures mem'[Size(items[..a + 1])..] == mem[Size(items[..a + 1])..]
  {
    hide Image, Size, Splice, ValidItem, SizeOf;
    var at, image := Size(items[..a]), Image(items[a]);
    SizeStep(items, a);
    ImageFits(items[a]);
    SpliceRead(mem, at, image, Size(items[..a + 1]), |mem|);
    forall k: nat | k < a
      ensures SlotAt(mem', items, k)
    {
      assert SlotAt(mem, items, k);
      SizeStep(items, k);
      SizeGrows(items, k + 1, a);
      ImageFits(items[k]);
      SpliceRead(mem, at, image, Size(items[..k]), Size(items[..k]) + |Image(items[k])|);
    }
  }

  lemma ImageFits(i: Item)
    requires ValidItem(i)
    ensures |Image(i)| <= SizeOf(i)
  {
  }

  /** Copies the argument the specifier c announces. */
  method Put(buf: array<char>, at: nat, item: Item, unsigned: bool, c: char)
    requires ValidItem(item) && at + SizeOf(item) <= buf.Length
    requires !item.Blank? && Announces(c, unsigned, item)
    modifies buf
    ensures buf[..] == Splice(old(buf[..]), at, Image(item))
  {
    if c == 's' {
      Write(buf, at, item.s + ['\0']);
    } else {
      var width := Width(c);
      var u: nat := if unsigned then item.value else Encoded(item.value, width);
      Write(buf, at, SetU(u, width));
    }
  }

  /** With the bytes full after item a, the format is done exactly if this succeeds. */
  lemma FullAfter(items: seq<Item>, a: nat, len: nat)
    requires AllValid(items) && a < |items| && 0 < len == Size(items[..a + 1]) && !items[a].Blank?
    ensures Succeeds(items, len) <==> a + 1 == |items|
    ensures Format(items[a + 1..]) == [] <==> a + 1 == |items|
  {
    var n := |items|;
    assert items[..n] == items;
    if a + 1 < n {
      SizeGrows(items, a + 1, n - 1);
      SizeStep(items, n - 1);
      assert items[n - 1] in items;
    }
  }

  lemma BlankLaid(mem: string, items: seq<Item>, a: nat)
    requires AllValid(items) && a < |items| && items[a].Blank? && Laid(mem, items, a) && Size(items[..a]) <= |mem|
    ensures Laid(mem, items, a + 1)
  {
    assert SlotAt(mem, items, a);
  }

  lemma Copied(mem: string, items: seq<Item>, a: nat, mem': string, len: nat)
    requires AllValid(items) && a < |items| && Laid(mem, items, a)
    requires Size(items[..a + 1]) <= len <= |mem| && Size(items[..a]) + |Image(items[a])| <= |mem|
    requires mem' == Splice(mem, Size(items[..a]), Image(items[a]))
    ensures Laid(mem', items, a + 1) && mem'[len..] == mem[len..]
  {
    hide Laid, Size, Image, Splice;
    var end := Size(items[..a + 1]);
    LaidMore(mem, items, a, mem');
    assert mem'[len..] == mem'[end..][len - end..] && mem[len..] == mem[end..][len - end..];
  }

  /** Marshalling into len bytes succeeds if there is room to spare, or none and no blank behind the last argument. */
  predicate Succeeds(items: seq<Item>, len: nat)
    requires AllValid(items)
  {
    && 0 < len
    && (Size(items) < len || (Size(items) == len && items != [] && !items[|items| - 1].Blank?))
  }

  method VMarshal(buf: array<char>, len: nat, format: string, items: seq<Item>) returns (ok: bool, count: nat)
    requires AllValid(items) && format == Format(items) && len <= buf.Length && len < U32
    modifies buf
    ensures ok <==> Succeeds(items, len)
    ensures count <= len
    ensures ok ==> count == Size(items) && Laid(buf[..], items, |items|)
    ensures buf[len..] == old(buf[len..])
  {
    hide Laid, Size, Format, Image, Splice;
    count := 0;
    if len == 0 {
      return false, 0;
    }
    var f, a, unsigned := 0, 0, true;
    StartOf(items, buf[..]);
    assert format[0..] == format;
    while f < |format|
      invariant f <= |format| && a <= |items| && format[f..] == Format(items[a..])
      invariant count == Size(items[..a]) < len
      invariant Laid(buf[..], items, a) && buf[len..] == old(buf[len..])
      decreases |items| - a
    {
      FormatLeft(items, a);
      SpecAt(format, f, unsigned, items, a);
      var (u, g) := NextSpec(format, f, unsigned);
      unsigned := u;
      assert ValidItem(items[a]);
      SizeStep(items, a);
      SizeGrows(items, a + 1, |items|);
      assert items[..|items|] == items;
      ghost var mem := buf[..];
      if format[g] == 's' || IsNumber(format[g]) {
        var inc := if format[g] == 's' then |items[a].s| + 1 else 8 * Width(format[g]);
        if len < count + inc {
          return false, count;
        }
        ImageFits(items[a]);
        Put(buf, count, items[a], unsigned, format[g]);
        Copied(mem, items, a, buf[..], len);
        count := count + inc;
        if len == count {
          FullAfter(items, a, len);
          ok := g + 1 == |format|;
          return;
        }
      } else {
        BlankLaid(mem, items, a);
      }
      f, a := g + 1, a + 1;
    }
    FormatLeft(items, a);
    assert items[..a] == items;
    ok := true;
  }

  /** What the caller's variables receive. */
  datatype Value = Text(s: string) | Number(v: int) | Float(bits: nat)

  function ValueOf(i: Item): (v: Value)
    requires !i.Blank?
  {
    if i.Str? then Text(i.s) else Number(i.value)
  }

  /** A blank stops unmarshalling if it is met before len bytes are read. */
  ghost predicate MeetsNoBlank(items: seq<Item>, len: nat)
    requires AllValid(items)
  {
    forall i: nat :: i < |items| && items[i].Blank? ==> len <= Size(items[..i])
  }

  /** The bytes end with an item. */
  ghost predicate EndsWithItem(items: seq<Item>, len: nat)
    requires AllValid(items)
  {
    Size(items) <= len || exists k: nat :: k <= |items| && Size(items[..k]) == len
  }

  /** The values of the first items. */
  ghost predicate AreValues(values: seq<Value>, items: seq<Item>) {
    |values| <= |items| && forall k :: 0 <= k < |values| ==> !items[k].Blank? && values[k] == ValueOf(items[k])
  }

  // ---------------------------------------------------------------- vunmarshal

  /** A value and the size of its slot; Unknown specifiers; Beyond where the source leaves the memory. */
  datatype Reading = Got(v: Value, inc: nat) | Unknown | Beyond

  /** What specifier c reads from the memory at `at`. The bits of a float are taken as they are. */
  function ReadAt(mem: string, at: nat, c: char, unsigned: bool): (r: Reading) {
    if c == 's' then
      if |mem| <= at || at + Completion.StrLen(mem, at) == |mem| then Beyond
      else Got(Text(mem[at..at + Completion.StrLen(mem, at)]), Completion.StrLen(mem, at) + 1)
    else if !IsNumber(c) && !IsFloat(c) then Unknown
    else if |mem| < at + Width(c) then Beyond
    else
      var u := GetU(mem[at..at + Width(c)]);
      Got(if IsFloat(c) then Float(u) else Number(Decoded(u, Width(c), !unsigned)), 8 * Width(c))
  }

  datatype Unmarshalled = Returned(retv: int, values: seq<Value>) | Leaves

  /** From position f of the format on, with cnt bytes and some values read. */
  function UnmarshalFrom(mem: string, len: nat, format: string, f: nat, unsigned: bool, cnt: nat, values: seq<Value>)
    : (r: Unmarshalled)
    requires f <= |format|
    decreases |format| - f
  {
    if f == |format| then Returned(|values|, values)
    else
      var (u, g) := NextSpec(format, f, unsigned);
      if g == |format| then Returned(-1, values)
      else
        match ReadAt(mem, cnt, format[g], u)
        case Beyond => Leaves
        case Unknown => Returned(-1, values)
        case Got(v, inc) =>
          if len == cnt + inc then Returned(|values| + 1, values + [v])
          else if len < cnt + inc then Returned(-1, values + [v])
          else UnmarshalFrom(mem, len, format, g + 1, u, cnt + inc, values + [v])
  }

  function Unmarshal(mem: string, len: nat, format: string): (r: Unmarshalled) {
    if len == 0 then Returned(0, []) else UnmarshalFrom(mem, len, format, 0, true, 0, [])
  }

  /** The case for specifier c. */
  method Get(buf: array<char>, at: nat, c: char, unsigned: bool) returns (r: Reading)
    ensures r == ReadAt(buf[..], at, c, unsigned)
  {
    if c == 's' {
      if buf.Length <= at {
        return Beyond;
      }
      var n := Completion.StrLen(buf[..], at);
      if at + n == buf.Length {
        return Beyond;
      }
      return Got(Text(buf[..][at..at + n]), n + 1);
    }
    if !IsNumber(c) && !IsFloat(c) {
      return Unknown;
    }
    var width := Width(c);
    if buf.Length < at + width {
      return Beyond;
    }
    var u := GetU(buf[..][at..at + width]);
    return Got(if IsFloat(c) then Float(u) else Number(Decoded(u, width, !unsigned)), 8 * width);
  }

  /** vunmarshal over any memory and with any format. */
  method VUnmarshal(buf: array<char>, len: nat, format: string) returns (leaves: bool, retv: int, values: seq<Value>)
    ensures Unmarshal(buf[..], len, format) == if leaves then Leaves else Returned(retv, values)
  {
    hide ReadAt;
    leaves, retv, values := false, 0, [];
    if len == 0 {
      return;
    }
    var f: nat, cnt: nat, unsigned := 0, 0, true;
    while f < |format|
      invariant f <= |format| && retv == |values|
      invariant Unmarshal(buf[..], len, format) == UnmarshalFrom(buf[..], len, format, f, unsigned, cnt, values)
      decreases |format| - f
    {
      var (u, g) := NextSpec(format, f, unsigned);
      if g == |format| {
        return false, -1, values;
      }
      var r := Get(buf, cnt, format[g], u);
      if r == Beyond {
        return true, -1, values;
      }
      if r == Unknown {
        return false, -1, values;
      }
      cnt, values, retv := cnt + r.inc, values + [r.v], retv + 1;
      if len == cnt {
        return;
      }
      if len < cnt {
        return false, -1, values;
      }
      unsigned, f := u, g + 1;
    }
  }

  lemma StringIsRead(mem: string, at: nat, s: string, unsigned: bool)
    requires '\0' !in s && at + |s| + 1 <= |mem| && mem[at..at + |s| + 1] == s + ['\0']
    ensures ReadAt(mem, at, 's', unsigned) == Got(Text(s), |s| + 1)
  {
    hide Completion.StrLen;
    Completion.StrLenOf(mem, at, s);
    assert mem[at..at + |s|] == mem[at..at + |s| + 1][..|s|];
  }

  lemma NumberIsRead(mem: string, at: nat, item: Item)
    requires ValidItem(item) && item.Num? && Slot(mem, at, item)
    ensures ReadAt(mem, at, item.letter, !item.signed) == Got(Number(item.value), SizeOf(item))
  {
    hide GetU, SetU, Pow256, Decoded, Encoded;
    DecodeEncode(item);
  }

  /** A slot is read as the item in it. */
  lemma SlotIsRead(mem: string, at: nat, c: char, unsigned: bool, item: Item)
    requires ValidItem(item) && Slot(mem, at, item) && Announces(c, unsigned, item)
    ensures ReadAt(mem, at, c, unsigned) == if item.Blank? then Unknown else Got(ValueOf(item), SizeOf(item))
  {
    match item
    case Blank(_) =>
    case Str(_, s) =>
      hide ReadAt;
      StringIsRead(mem, at, s, unsigned);
    case Num(_, _, _) =>
      hide ReadAt;
      NumberIsRead(mem, at, item);
  }

  /** What vunmarshal returns for memory that holds the items. */
  ghost predicate ReadsItems(items: seq<Item>, len: nat, r: Unmarshalled)
    requires AllValid(items)
  {
    && r.Returned?
    && (0 <= r.retv <==> MeetsNoBlank(items, len) && EndsWithItem(items, len))
    && (0 <= r.retv ==> r.retv == |r.values| && AreValues(r.values, items))
    && (0 <= r.retv ==> r.retv == |items| || Size(items[..r.retv]) == len)
  }

  lemma {:induction false} ItemsAreReadFrom(mem: string, len: nat, format: string, items: seq<Item>,
                                            f: nat, unsigned: bool, values: seq<Value>)
    requires AllValid(items) && Laid(mem, items, |items|) && AreValues(values, items)
    requires f <= |format| && format[f..] == Format(items[|values|..]) && Size(items[..|values|]) < len
    ensures ReadsItems(items, len, UnmarshalFrom(mem, len, format, f, unsigned, Size(items[..|values|]), values))
    decreases |items| - |values|
  {
    hide Size, Format, Slot, ReadAt, NextSpec, Announces;
    var a := |values|;
    FormatLeft(items, a);
    if a == |items| {
      assert items[..a] == items;
    } else {
      SpecAt(format, f, unsigned, items, a);
      var (u, g) := NextSpec(format, f, unsigned);
      assert SlotAt(mem, items, a);
      SlotIsRead(mem, Size(items[..a]), format[g], u, items[a]);
      SizeStep(items, a);
      if !items[a].Blank? {
        var more := values + [ValueOf(items[a])];
        if Size(items[..a + 1]) == len {
          FullStops(items, a + 1, len);
        } else if len < Size(items[..a + 1]) {
          OverStops(items, a, len);
        } else {
          ItemsAreReadFrom(mem, len, format, items, g + 1, u, more);
        }
      }
    }
  }

  /** Memory that holds the items of a format is read as these items. */
  lemma ItemsAreRead(mem: string, len: nat, items: seq<Item>)
    requires AllValid(items) && Laid(mem, items, |items|) && 0 < len
    ensures ReadsItems(items, len, Unmarshal(mem, len, Format(items)))
  {
    hide Format, UnmarshalFrom, ReadsItems, Laid;
    StartOf(items, mem);
    assert Format(items)[0..] == Format(items);
    ItemsAreReadFrom(mem, len, Format(items), items, 0, true, []);
  }

  lemma FullStops(items: seq<Item>, a: nat, len: nat)
    requires AllValid(items) && a <= |items| && Size(items[..a]) == len
    requires forall k :: 0 <= k < a ==> !items[k].Blank?
    ensures MeetsNoBlank(items, len) && EndsWithItem(items, len)
  {
    forall i: nat | i < |items| && items[i].Blank?
      ensures len <= Size(items[..i])
    {
      SizeGrows(items, a, i);
    }
  }

  lemma OverStops(items: seq<Item>, a: nat, len: nat)
    requires AllValid(items) && a < |items| && Size(items[..a]) < len < Size(items[..a + 1])
    ensures !EndsWithItem(items, len)
  {
    SizeGrows(items, a + 1, |items|);
    assert items[..|items|] == items;
    forall k: nat | k <= |items|
      ensures Size(items[..k]) != len
    {
      if k <= a {
        SizeGrows(items, k, a);
      } else {
        SizeGrows(items, a + 1, k);
      }
    }
  }

  // ---------------------------------------------------------------- there and back

  predicate HasBlank(items: seq<Item>) {
    exists i :: i in items && i.Blank?
  }

  /** Without a blank at the end, every proper part of the items is shorter. */
  lemma PartsAreShorter(items: seq<Item>, k: nat)
    requires AllValid(items) && k < |items| && !items[|items| - 1].Blank?
    ensures Size(items[..k]) < Size(items)
  {
    var n := |items|;
    assert items[..n] == items && items[n - 1] in items;
    SizeGrows(items, k, n - 1);
    SizeStep(items, n - 1);
  }

  lemma BlanksStopOneOrTheOther(items: seq<Item>)
    requires AllValid(items)
    ensures items != [] && !HasBlank(items) ==> Succeeds(items, Size(items))
    ensures Succeeds(items, Size(items)) ==> (MeetsNoBlank(items, Size(items)) <==> !HasBlank(items))
    ensures Succeeds(items, Size(items)) ==>
              forall k: nat :: k < |items| ==> Size(items[..k]) < Size(items)
  {
    hide Size;
    if items != [] && !items[|items| - 1].Blank? {
      PartsAreShorter(items, 0);
      forall k: nat | k < |items|
        ensures Size(items[..k]) < Size(items)
      {
        PartsAreShorter(items, k);
      }
    }
  }

  /** "%b %b" can be marshalled and not unmarshalled, "%b " can not even be marshalled. */
  lemma WhiteSpaceIsNotIgnored()
    ensures var b := Num('b', true, 1);
            && AllValid([b, Blank(' '), b]) && AllValid([b, Blank(' ')])
            && Succeeds([b, Blank(' '), b], 16) && !MeetsNoBlank([b, Blank(' '), b], 16)
            && Size([b, Blank(' ')]) == 8 && !Succeeds([b, Blank(' ')], 8)
  {
    var b := Num('b', true, 1);
    assert Pow256(1) == 256;
    var two, three := [b, Blank(' ')], [b, Blank(' '), b];
    assert Size([b]) == 8 by { SizeStep([b], 0); assert [b][..1] == [b]; }
    SizeStep(two, 1);
    assert two[..1] == [b] && two[..2] == two;
    SizeStep(three, 2);
    assert three[..2] == two && three[..3] == three && three[..1] == [b];
    assert three[1].Blank?;
  }

  /**
   Sized, marshalled into exactly that many bytes and unmarshalled: for every list of integers and
   strings the count and the values come back, if and only if there is an argument and the format has
   no characters between the specifiers, such as the white space it is documented to allow.
   */
  method ThereAndBack(format: string, items: seq<Item>) returns (ok: bool, retv: int, values: seq<Value>)
    requires AllValid(items) && format == Format(items) && Size(items) < U32
    ensures ok && 0 <= retv <==> items != [] && !HasBlank(items)
    ensures ok && 0 <= retv ==> retv == |values| == |items| && AreValues(values, items)
  {
    hide Size, Format;
    var size := VMarshalSize(format, items);
    var buf := new char[size];
    var count;
    retv, values := 0, [];
    ok, count := VMarshal(buf, size, format, items);
    BlanksStopOneOrTheOther(items);
    if ok {
      ItemsAreRead(buf[..], size, items);
      var leaves;
      leaves, retv, values := VUnmarshal(buf, size, format);
    }
  }
}
