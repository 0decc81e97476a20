/** Numbers as big-endian bytes. */
module Words {
  type Byte = b: nat | b < 256

  function Pow256(k: nat): (p: nat)
    ensures p > 0
  {
    if k == 0 then 1 else 256 * Pow256(k - 1)
  }

  /** The lowest k bytes of a number in two's complement, highest byte first. */
  function ToBytes(v: int, k: nat): (b: seq<Byte>)
    ensures |b| == k
    decreases k
  {
    if k == 0 then [] else ToBytes(v / 256, k - 1) + [v % 256]
  }

  function FromBytes(b: seq<Byte>): nat {
    if b == [] then 0 else FromBytes(b[..|b| - 1]) * 256 + b[|b| - 1]
  }

  /** A number between 0 and n that differs from v by a multiple of n is v modulo n. */
  lemma ModIs(v: int, n: int, m: int, x: int)
    requires v == m * n + x && 0 <= x < n
    ensures v % n == x
  {
    var q, r := v / n, v % n;
    assert v == q * n + r;
    assert (q - m) * n == x - r;
    assert q - m >= 1 ==> (q - m) * n >= n;
    assert q - m <= -1 ==> (q - m) * n <= 0 - n;
  }

  lemma {:induction false} FromTo(v: int, k: nat)
    ensures FromBytes(ToBytes(v, k)) == v % Pow256(k)
    decreases k
  {
    if k > 0 {
      var q, p := v / 256, Pow256(k - 1);
      FromTo(q, k - 1);
      var b := ToBytes(v, k);
      assert b[..k - 1] == ToBytes(q, k - 1);
      assert FromBytes(b) == FromBytes(ToBytes(q, k - 1)) * 256 + v % 256;
      Digits(v, q, v % 256, p);
    }
  }

  lemma Digits(v: int, q: int, d: int, p: nat)
    requires v == 256 * q + d && 0 <= d < 256 && p > 0
    ensures v % (256 * p) == q % p * 256 + d
  {
    var m, s := q / p, q % p;
    assert q == m * p + s;
    assert v == m * (256 * p) + (s * 256 + d);
    ModIs(v, 256 * p, m, s * 256 + d);
  }

  /** The highest byte comes first. */
  lemma {:induction false} ByteAt(v: int, k: nat, i: nat)
    requires i < k
    ensures ToBytes(v, k)[i] == v / Pow256(k - 1 - i) % 256
    decreases k
  {
    if i < k - 1 {
      ByteAt(v / 256, k - 1, i);
      DivideTwice(v, Pow256(k - 2 - i));
    }
  }

  lemma DivideTwice(v: int, p: nat)
    requires p > 0
    ensures v / 256 / p == v / (256 * p)
  {
    var q, r := v / 256, v % 256;
    var m, s := q / p, q % p;
    assert v == 256 * (p * m + s) + r;
    assert 256 * (p * m) == 256 * p * m;
    DivideIs(v, 256 * p, m, 256 * s + r);
  }

  lemma DivideIs(v: int, n: int, m: int, rest: int)
    requires v == n * m + rest && 0 <= rest < n
    ensures v / n == m
  {
    assert n * m == m * n;
    ModIs(v, n, m, rest);
    assert v == n * (v / n) + rest;
    assert n * (v / n - m) == 0;
  }

  /** Bytes are what their number is written as. */
  lemma {:induction false} ToFrom(b: seq<Byte>)
    ensures ToBytes(FromBytes(b), |b|) == b
    decreases |b|
  {
    if b != [] {
      var front, last := b[..|b| - 1], b[|b| - 1];
      ToFrom(front);
      assert FromBytes(b) / 256 == FromBytes(front) && FromBytes(b) % 256 == last;
      assert b == front + [last];
    }
  }

  lemma {:induction false} LastBytes(v: int, k: nat, j: nat)
    requires j <= k
    ensures ToBytes(v, k)[k - j..] == ToBytes(v, j)
    decreases j
  {
    if j > 0 {
      LastBytes(v / 256, k - 1, j - 1);
      var b := ToBytes(v / 256, k - 1);
      assert (b + [v % 256])[k - j..] == b[k - j..] + [v % 256];
    }
  }

  /** The signed reading of k bytes. */
  function Signed(x: nat, k: nat): int {
    if 2 * x < Pow256(k) then x else x - Pow256(k)
  }

  /** What k bytes can hold. */
  predicate Fits(v: int, k: nat, signed: bool) {
    if signed then 0 - Pow256(k) <= 2 * v < Pow256(k) else 0 <= v < Pow256(k)
  }

  lemma ReadsBack(v: int, k: nat, signed: bool)
    requires Fits(v, k, signed)
    ensures var x := FromBytes(ToBytes(v, k)); v == if signed then Signed(x, k) else x
  {
    FromTo(v, k);
    var p := Pow256(k);
    if v >= 0 {
      ModIs(v, p, 0, v);
    } else {
      ModIs(v, p, -1, v + p);
    }
  }

  lemma {:induction false} Pow256Grows(j: nat, k: nat)
    requires j <= k
    ensures Pow256(j) <= Pow256(k)
    decreases k
  {
    if j < k {
      Pow256Grows(j, k - 1);
    }
  }

  const TWO_63 := 0x8000_0000_0000_0000

  lemma ShortFits(v: nat)
    requires v < TWO_63
    ensures Fits(v, 32, false)
  {
    assert Pow256(2) == 0x1_0000;
    assert Pow256(4) == 0x1_0000_0000;
    assert Pow256(6) == 0x1_0000_0000_0000;
    assert Pow256(8) == 0x1_0000_0000_0000_0000;
    Pow256Grows(8, 32);
  }

  function Zeros(n: nat): (b: seq<Byte>)
    ensures |b| == n
  {
    seq(n, _ => 0)
  }

  predicate AllZero(b: seq<Byte>) {
    forall i :: 0 <= i < |b| ==> b[i] == 0
  }

  /** The bytes stand in the data at an offset. */
  predicate At(data: seq<Byte>, i: nat, bytes: seq<Byte>) {
    i + |bytes| <= |data| && data[i..i + |bytes|] == bytes
  }

  lemma AtParts(data: seq<Byte>, i: nat, a: seq<Byte>, b: seq<Byte>)
    requires At(data, i, a + b)
    ensures At(data, i, a) && At(data, i + |a|, b)
  {
    var whole := data[i..i + |a + b|];
    assert whole[..|a|] == a && whole[|a|..] == b;
    assert data[i..i + |a|] == whole[..|a|];
    assert data[i + |a|..i + |a| + |b|] == whole[|a|..];
  }

  lemma AtWithin(l: seq<Byte>, a: seq<Byte>, r: seq<Byte>)
    ensures At(l + a + r, |l|, a)
  {
    assert (l + a + r)[|l|..|l| + |a|] == a;
  }
}

/** The contract ABI: types, values, packing and unpacking. */
module Abi {
  import opened Wrappers
  import opened Words

  datatype Type =
    | IntTy(signed: bool, bits: nat)
    | BoolTy
    | AddressTy
    | FixedBytesTy(bytes: nat)
    | FunctionTy
    | StringTy
    | BytesTy
    | SliceTy(elem: Type)
    | ArrayTy(size: nat, of: Type)

  /** Numbers, booleans, byte strings of every kind, and lists. */
  datatype Value = Num(n: int) | Bool(b: bool) | Raw(raw: seq<Byte>) | List(list: seq<Value>)

  /** How many of the 32 bytes of a word are read: Go has machine integers of four widths, and
      every other width is a big integer. */
  function Width(bits: nat): (w: nat)
    ensures w <= 32
  {
    if bits == 8 then 1 else if bits == 16 then 2 else if bits == 32 then 4 else if bits == 64 then 8 else 32
  }

  /** The machine integers are as wide as their types; all others are read as whole words. */
  lemma WidthIs(bits: nat)
    ensures bits in {8, 16, 32, 64, 256} ==> 8 * Width(bits) == bits
    ensures bits !in {8, 16, 32, 64} ==> Width(bits) == 32
  {
  }

  /** Types that take one word. */
  predicate Elementary(t: Type) {
    match t
    case IntTy(_, _) => true
    case BoolTy => true
    case AddressTy => true
    case FixedBytesTy(n) => 0 < n <= 32
    case FunctionTy => true
    case _ => false
  }

  predicate Dynamic(t: Type) {
    t.StringTy? || t.BytesTy? || t.SliceTy?
  }

  /** The value is one of the type, within what the Go type of it can hold. */
  predicate HasType(t: Type, v: Value) {
    match t
    case IntTy(signed, bits) => v.Num? && Fits(v.n, Width(bits), signed)
    case BoolTy => v.Bool?
    case AddressTy => v.Raw? && |v.raw| == 20
    case FixedBytesTy(n) => v.Raw? && |v.raw| == n
    case FunctionTy => v.Raw? && |v.raw| == 24
    case StringTy => v.Raw?
    case BytesTy => v.Raw?
    case SliceTy(e) => v.List? && forall i :: 0 <= i < |v.list| ==> HasType(e, v.list[i])
    case ArrayTy(n, e) => v.List? && |v.list| == n && forall i :: 0 <= i < |v.list| ==> HasType(e, v.list[i])
  }

  // ----- Packing

  function PackNum(n: int): (b: seq<Byte>)
    ensures |b| == 32
  {
    ToBytes(n, 32)
  }

  function RightPad(b: seq<Byte>, n: nat): seq<Byte> {
    if n <= |b| then b else b + Zeros(n - |b|)
  }

  function LeftPad(b: seq<Byte>, n: nat): seq<Byte> {
    if n <= |b| then b else Zeros(n - |b|) + b
  }

  function PackBytesSlice(b: seq<Byte>, l: nat): seq<Byte> {
    PackNum(l) + RightPad(b, (l + 31) / 32 * 32)
  }

  function PackType(t: Type, v: Value): seq<Byte>
    requires HasType(t, v)
    decreases t, 0
  {
    match t
    case IntTy(_, _) => PackNum(v.n)
    case BoolTy => PackNum(if v.b then 1 else 0)
    case AddressTy => LeftPad(v.raw, 32)
    case FixedBytesTy(_) => RightPad(v.raw, 32)
    case FunctionTy => RightPad(v.raw, 32)
    case StringTy => PackBytesSlice(v.raw, |v.raw|)
    case BytesTy => PackBytesSlice(v.raw, |v.raw|)
    case SliceTy(e) => PackBytesSlice(PackAll(e, v.list), |v.list|)
    case ArrayTy(_, e) => PackAll(e, v.list)
  }

  function PackAll(e: Type, vs: seq<Value>): seq<Byte>
    requires forall i :: 0 <= i < |vs| ==> HasType(e, vs[i])
    decreases e, |vs| + 1
  {
    if vs == [] then [] else PackAll(e, vs[..|vs| - 1]) + PackType(e, vs[|vs| - 1])
  }

  // ----- Reading

  function ReadInteger(signed: bool, bits: nat, word: seq<Byte>): int
    requires |word| == 32
  {
    var w := Width(bits);
    var x := FromBytes(word[32 - w..]);
    if signed then Signed(x, w) else x
  }

  /** Only the words of zero and one are booleans. */
  function ReadBool(word: seq<Byte>): Option<Value>
    requires |word| == 32
  {
    if !AllZero(word[..31]) || word[31] > 1 then None else Some(Bool(word[31] == 1))
  }

  function ReadFunction(word: seq<Byte>): Option<Value>
    requires |word| == 32
  {
    if AllZero(word[24..]) then Some(Raw(word[..24])) else None
  }

  function ReadWord(t: Type, word: seq<Byte>): Option<Value>
    requires Elementary(t) && |word| == 32
  {
    match t
    case IntTy(signed, bits) => Some(Num(ReadInteger(signed, bits, word)))
    case BoolTy => ReadBool(word)
    case AddressTy => Some(Raw(word[12..]))
    case FixedBytesTy(n) => Some(Raw(word[..n]))
    case FunctionTy => ReadFunction(word)
  }

  /** Follows an offset to the length behind it: where the contents start and how long they are. */
  function LengthPrefixPointsTo(index: nat, data: seq<Byte>): Option<(nat, nat)>
    requires index + 32 <= |data|
  {
    var offsetEnd := FromBytes(data[index..index + 32]) + 32;
    if offsetEnd > |data| || offsetEnd >= TWO_63 then None
    else
      var length := FromBytes(data[offsetEnd - 32..offsetEnd]);
      if offsetEnd + length >= TWO_63 || offsetEnd + length > |data| then None else Some((offsetEnd, length))
  }

  /** The bytes of one element of a fixed array. */
  function FullElemSize(e: Type): nat {
    if e.ArrayTy? then e.size * FullElemSize(e.of) else 32
  }

  function Unpack(index: nat, t: Type, data: seq<Byte>): Option<Value>
    decreases t, 0
  {
    if index + 32 > |data| then None
    else match t
      case SliceTy(e) =>
        var p := LengthPrefixPointsTo(index, data);
        if p == None then None else AsList(UnpackEach(e, p.value.0, 32, p.value.1, data))
      case ArrayTy(n, e) => AsList(UnpackEach(e, index, FullElemSize(e), n, data))
      case StringTy => UnpackBytes(index, data)
      case BytesTy => UnpackBytes(index, data)
      case FixedBytesTy(n) => if n <= 32 then Some(Raw(data[index..index + n])) else None
      case _ => ReadWord(t, data[index..index + 32])
  }

  function UnpackBytes(index: nat, data: seq<Byte>): Option<Value>
    requires index + 32 <= |data|
  {
    var p := LengthPrefixPointsTo(index, data);
    if p == None then None else Some(Raw(data[p.value.0..p.value.0 + p.value.1]))
  }

  function AsList(vs: Option<seq<Value>>): Option<Value> {
    if vs == None then None else Some(List(vs.value))
  }

  /** Elements that follow each other in steps; at least a word each must be there. */
  function UnpackEach(e: Type, start: nat, step: nat, size: nat, data: seq<Byte>): Option<seq<Value>>
    decreases e, size + 2
  {
    if start + 32 * size > |data| then None else UnpackSome(e, start, step, size, data)
  }

  function UnpackSome(e: Type, start: nat, step: nat, size: nat, data: seq<Byte>): Option<seq<Value>>
    decreases e, size + 1
  {
    if size == 0 then Some([])
    else
      var front := UnpackSome(e, start, step, size - 1, data);
      if front == None then None
      else
        var last := Unpack(start + (size - 1) * step, e, data);
        if last == None then None else Some(front.value + [last.value])
  }

  // ----- One value

  lemma PackedWord(t: Type, v: Value)
    requires Elementary(t) && HasType(t, v)
    ensures |PackType(t, v)| == 32
  {
  }

  /** An elementary value is read back from its word. */
  lemma WordRoundTrip(t: Type, v: Value)
    requires Elementary(t) && HasType(t, v)
    ensures |PackType(t, v)| == 32 && ReadWord(t, PackType(t, v)) == Some(v)
  {
    hide ToBytes, FromBytes, Pow256;
    if t.IntTy? {
      LastBytes(v.n, 32, Width(t.bits));
      ReadsBack(v.n, Width(t.bits), t.signed);
    } else if t.BoolTy? {
      BoolBytes(if v.b then 1 else 0, 32);
    } else {
      Pads(v.raw, 32);
    }
  }

  lemma BoolBytes(n: int, k: nat)
    requires 0 <= n <= 1 && k > 0
    ensures AllZero(ToBytes(n, k)[..k - 1]) && ToBytes(n, k)[k - 1] == n
  {
    ZeroBytes(k - 1);
    assert ToBytes(n, k) == ToBytes(0, k - 1) + [n];
  }

  lemma Pads(b: seq<Byte>, n: nat)
    requires |b| <= n
    ensures |LeftPad(b, n)| == n && LeftPad(b, n)[n - |b|..] == b
    ensures |RightPad(b, n)| == n && RightPad(b, n)[..|b|] == b && AllZero(RightPad(b, n)[|b|..])
  {
  }

  lemma {:induction false} ZeroBytes(k: nat)
    ensures AllZero(ToBytes(0, k))
    decreases k
  {
    if k > 0 {
      ZeroBytes(k - 1);
    }
  }

  lemma UnpackWord(t: Type, v: Value, index: nat, data: seq<Byte>)
    requires Elementary(t) && HasType(t, v) && At(data, index, PackType(t, v))
    ensures Unpack(index, t, data) == Some(v)
  {
    WordRoundTrip(t, v);
    if t.FixedBytesTy? {
      assert data[index..index + t.bytes] == data[index..index + 32][..t.bytes];
    }
  }

  /** Types of a fixed size: elementary ones and non-empty arrays of such, of any dimension. */
  predicate Static(t: Type) {
    if t.ArrayTy? then t.size > 0 && Static(t.of) else Elementary(t)
  }

  /** The words that a value of a fixed size takes. */
  function WordsOf(t: Type): (w: nat)
    requires Static(t)
    ensures w > 0
  {
    if t.ArrayTy? then t.size * WordsOf(t.of) else 1
  }

  lemma {:induction false} SizesAgree(t: Type)
    requires Static(t)
    ensures FullElemSize(t) == 32 * WordsOf(t)
    ensures t.ArrayTy? ==> ArraySize(t) == WordsOf(t) >= t.size
  {
    if t.ArrayTy? {
      SizesAgree(t.of);
      Times(t.size, WordsOf(t.of));
    }
  }

  lemma Times(a: nat, b: nat)
    requires b > 0
    ensures a * (32 * b) == 32 * (a * b) && a * b >= a && a * 1 == a
  {
  }

  lemma {:induction false} PackedSize(t: Type, v: Value)
    requires Static(t) && HasType(t, v)
    ensures |PackType(t, v)| == 32 * WordsOf(t)
    decreases t, 0
  {
    if t.ArrayTy? {
      PackedAll(t.of, v.list);
      assert |v.list| * (32 * WordsOf(t.of)) == 32 * (t.size * WordsOf(t.of));
    } else {
      PackedWord(t, v);
    }
  }

  lemma {:induction false} PackedAll(e: Type, vs: seq<Value>)
    requires Static(e) && forall i :: 0 <= i < |vs| ==> HasType(e, vs[i])
    ensures |PackAll(e, vs)| == |vs| * (32 * WordsOf(e))
    decreases e, 1, |vs|
  {
    if vs != [] {
      PackedAll(e, vs[..|vs| - 1]);
      PackedSize(e, vs[|vs| - 1]);
      var step := 32 * WordsOf(e);
      assert |vs| * step == (|vs| - 1) * step + step;
    }
  }

  /** A value of fixed size is read back in place. */
  lemma {:induction false} StaticRoundTrip(t: Type, v: Value, index: nat, data: seq<Byte>)
    requires Static(t) && HasType(t, v) && At(data, index, PackType(t, v))
    ensures Unpack(index, t, data) == Some(v)
    decreases t, 0
  {
    if t.ArrayTy? {
      PackedSize(t, v);
      SizesAgree(t.of);
      UnpackElements(t.of, v.list, index, data);
      RoomForWords(t, index, data);
    } else {
      UnpackWord(t, v, index, data);
    }
  }

  lemma RoomForWords(t: Type, index: nat, data: seq<Byte>)
    requires Static(t) && t.ArrayTy? && index + 32 * WordsOf(t) <= |data|
    ensures index + 32 * t.size <= |data| && index + 32 <= |data|
  {
    SizesAgree(t);
  }

  lemma {:induction false} UnpackElements(e: Type, vs: seq<Value>, start: nat, data: seq<Byte>)
    requires Static(e) && (forall i :: 0 <= i < |vs| ==> HasType(e, vs[i])) && At(data, start, PackAll(e, vs))
    ensures UnpackSome(e, start, 32 * WordsOf(e), |vs|, data) == Some(vs)
    decreases e, 1, |vs|
  {
    hide Unpack, UnpackSome, PackType, HasType, At, Static, WordsOf;
    var step := 32 * WordsOf(e);
    if vs == [] {
      UnpackNone(e, start, step, data);
    } else {
      var front, last := vs[..|vs| - 1], vs[|vs| - 1];
      PackedAll(e, front);
      AtParts(data, start, PackAll(e, front), PackType(e, last));
      UnpackElements(e, front, start, data);
      StaticRoundTrip(e, last, start + |front| * step, data);
      UnpackOneMore(e, start, step, |front|, data, front, last);
      assert vs == front + [last];
    }
  }

  lemma UnpackNone(e: Type, start: nat, step: nat, data: seq<Byte>)
    ensures UnpackSome(e, start, step, 0, data) == Some([])
  {
  }

  lemma UnpackOneMore(e: Type, start: nat, step: nat, n: nat, data: seq<Byte>, front: seq<Value>, last: Value)
    requires UnpackSome(e, start, step, n, data) == Some(front) && Unpack(start + n * step, e, data) == Some(last)
    ensures UnpackSome(e, start, step, n + 1, data) == Some(front + [last])
  {
  }

  // ----- The layout

  /** How elementary values are laid out in their word: numbers with the highest byte first, addresses
      at the end, byte arrays and functions at the beginning, with zeros in between. */
  lemma WordLayout(t: Type, v: Value, i: nat)
    requires Elementary(t) && HasType(t, v) && i < 32
    ensures var word := PackType(t, v);
            && |word| == 32
            && (t.IntTy? ==> word[i] == v.n / Pow256(31 - i) % 256)
            && (t.BoolTy? ==> word[i] == if i == 31 && v.b then 1 else 0)
            && (t.AddressTy? ==> word[i] == if i < 12 then 0 else v.raw[i - 12])
            && (t.FixedBytesTy? ==> word[i] == if i < t.bytes then v.raw[i] else 0)
            && (t.FunctionTy? ==> word[i] == if i < 24 then v.raw[i] else 0)
  {
    hide ToBytes, Pow256;
    if t.IntTy? {
      ByteAt(v.n, 32, i);
    } else if t.BoolTy? {
      BoolBytes(if v.b then 1 else 0, 32);
      assert i < 31 ==> PackType(t, v)[..31][i] == 0;
    }
  }

  /** Booleans and functions are read from nothing but their own words. */
  lemma OnlyOwnWords(t: Type, word: seq<Byte>)
    requires (t.BoolTy? || t.FunctionTy?) && |word| == 32 && ReadWord(t, word) != None
    ensures var v := ReadWord(t, word).value; HasType(t, v) && PackType(t, v) == word
  {
    hide ToBytes;
    var v := ReadWord(t, word).value;
    if t.BoolTy? {
      BoolBytes(if v.b then 1 else 0, 32);
      assert word[..31] == PackType(t, v)[..31];
      assert word == word[..31] + [word[31]];
    } else {
      assert word == word[..24] + word[24..];
      assert word[24..] == Zeros(8);
    }
  }

  /** The least multiple of 32 that is not below n. */
  lemma LeastMultiple(n: nat, m: nat)
    ensures var up := (n + 31) / 32 * 32; up % 32 == 0 && n <= up < n + 32 && (m % 32 == 0 && m >= n ==> m >= up)
  {
  }

  /** A byte string is its length, its bytes, and zeros up to the next full word. */
  lemma BytesLayout(t: Type, b: seq<Byte>, m: nat)
    requires t.StringTy? || t.BytesTy?
    ensures var packed := PackType(t, Raw(b));
            && |packed| % 32 == 0 && 32 + |b| <= |packed| < 32 + |b| + 32
            && (m % 32 == 0 && m >= |b| ==> |packed| <= 32 + m)
            && packed[..32] == ToBytes(|b|, 32) && packed[32..32 + |b|] == b && AllZero(packed[32 + |b|..])
  {
    hide ToBytes;
    LeastMultiple(|b|, m);
    var up := (|b| + 31) / 32 * 32;
    Pads(b, up);
    var packed := PackType(t, Raw(b));
    assert packed[32..] == RightPad(b, up);
    assert packed[32 + |b|..] == RightPad(b, up)[|b|..];
    assert packed[32..32 + |b|] == RightPad(b, up)[..|b|];
  }

  /** The elements of a list of fixed-size values follow each other. */
  lemma {:induction false} ElementStands(e: Type, vs: seq<Value>, i: nat)
    requires Static(e) && i < |vs| && forall k :: 0 <= k < |vs| ==> HasType(e, vs[k])
    ensures At(PackAll(e, vs), i * (32 * WordsOf(e)), PackType(e, vs[i]))
    decreases |vs|
  {
    hide PackType, HasType, Static, WordsOf;
    var front, last := vs[..|vs| - 1], vs[|vs| - 1];
    PackedAll(e, front);
    if i == |front| {
      assert PackAll(e, front) + PackType(e, last) + [] == PackAll(e, vs);
      AtWithin(PackAll(e, front), PackType(e, last), []);
    } else {
      ElementStands(e, front, i);
      AtMore(PackAll(e, front), PackType(e, last), i * (32 * WordsOf(e)), PackType(e, vs[i]));
    }
  }

  lemma AtMore(data: seq<Byte>, more: seq<Byte>, i: nat, bytes: seq<Byte>)
    requires At(data, i, bytes)
    ensures At(data + more, i, bytes)
  {
    assert (data + more)[i..i + |bytes|] == data[i..i + |bytes|];
  }

  /** A fixed array is its elements. */
  lemma ArrayLayout(t: Type, vs: seq<Value>, i: nat)
    requires Static(t) && t.ArrayTy? && HasType(t, List(vs)) && i < t.size
    ensures var packed, step := PackType(t, List(vs)), 32 * WordsOf(t.of);
            |packed| == t.size * step && At(packed, i * step, PackType(t.of, vs[i]))
  {
    hide At, WordsOf;
    PackedAll(t.of, vs);
    ElementStands(t.of, vs, i);
  }

  /** A slice of words is its length and its elements. */
  lemma SliceLayout(e: Type, vs: seq<Value>)
    requires Elementary(e) && forall k :: 0 <= k < |vs| ==> HasType(e, vs[k])
    ensures var packed := PackType(SliceTy(e), List(vs));
            && |packed| == 32 + 32 * |vs| && packed[..32] == ToBytes(|vs|, 32)
            && forall i :: 0 <= i < |vs| ==> At(packed, 32 + 32 * i, PackType(e, vs[i]))
  {
    hide ToBytes, PackAll, Elementary, At, PackType;
    WordsFollow(e, vs);
    SliceIs(e, vs);
    var packed := PackType(SliceTy(e), List(vs));
    forall i | 0 <= i < |vs| ensures At(packed, 32 + 32 * i, PackType(e, vs[i])) {
      AtBehind(ToBytes(|vs|, 32), PackAll(e, vs), 32 * i, PackType(e, vs[i]));
    }
  }

  lemma WordsFollow(e: Type, vs: seq<Value>)
    requires Elementary(e) && forall k :: 0 <= k < |vs| ==> HasType(e, vs[k])
    ensures |PackAll(e, vs)| == 32 * |vs|
    ensures forall i :: 0 <= i < |vs| ==> At(PackAll(e, vs), 32 * i, PackType(e, vs[i]))
  {
    hide At, PackAll, PackType, HasType, Elementary, Static, WordsOf;
    ElementaryIsStatic(e);
    PackedAll(e, vs);
    forall i | 0 <= i < |vs| ensures At(PackAll(e, vs), 32 * i, PackType(e, vs[i])) {
      ElementStands(e, vs, i);
    }
  }

  lemma SliceIs(e: Type, vs: seq<Value>)
    requires Elementary(e) && (forall k :: 0 <= k < |vs| ==> HasType(e, vs[k])) && |PackAll(e, vs)| == 32 * |vs|
    ensures PackType(SliceTy(e), List(vs)) == ToBytes(|vs|, 32) + PackAll(e, vs)
  {
    hide ToBytes, PackAll, HasType;
    LeastMultiple(|vs|, 32 * |vs|);
  }

  lemma AtBehind(front: seq<Byte>, data: seq<Byte>, i: nat, bytes: seq<Byte>)
    requires At(data, i, bytes)
    ensures At(front + data, |front| + i, bytes)
  {
    assert (front + data)[|front| + i..|front| + i + |bytes|] == data[i..i + |bytes|];
  }

  /** The types for which values are read back: fixed sizes, byte strings, and slices of words. */
  predicate Supported(t: Type) {
    match t
    case StringTy => true
    case BytesTy => true
    case SliceTy(e) => Elementary(e)
    case _ => Static(t)
  }

  /** An offset leads to the length behind it and to the contents behind that. */
  lemma OffsetLeads(index: nat, offset: nat, l: nat, contents: seq<Byte>, data: seq<Byte>)
    requires At(data, index, PackNum(offset)) && At(data, offset, PackNum(l) + contents)
    requires l <= |contents| && |data| < TWO_63
    ensures LengthPrefixPointsTo(index, data) == Some((offset + 32, l)) && At(data, offset + 32, contents)
  {
    AtParts(data, offset, PackNum(l), contents);
    ShortFits(offset);
    ShortFits(l);
    ReadsBack(offset, 32, false);
    ReadsBack(l, 32, false);
  }

  lemma Padded(b: seq<Byte>)
    ensures |b| <= |RightPad(b, (|b| + 31) / 32 * 32)| && RightPad(b, (|b| + 31) / 32 * 32)[..|b|] == b
  {
  }

  lemma ElementaryIsStatic(e: Type)
    requires Elementary(e)
    ensures Static(e) && WordsOf(e) == 1
  {
  }

  lemma SupportedIsStatic(t: Type)
    requires Supported(t) && !Dynamic(t)
    ensures Static(t)
  {
  }

  lemma SliceRoundTrip(e: Type, vs: seq<Value>, index: nat, offset: nat, data: seq<Byte>)
    requires Elementary(e) && (forall i :: 0 <= i < |vs| ==> HasType(e, vs[i])) && |data| < TWO_63
    requires At(data, index, PackNum(offset)) && At(data, offset, PackType(SliceTy(e), List(vs)))
    ensures Unpack(index, SliceTy(e), data) == Some(List(vs))
  {
    hide ToBytes, FromBytes, LengthPrefixPointsTo, UnpackSome, PackAll, HasType, Elementary, PackNum, Static, WordsOf;
    ElementaryIsStatic(e);
    PackedAll(e, vs);
    OffsetLeads(index, offset, |vs|, PackAll(e, vs), data);
    UnpackElements(e, vs, offset + 32, data);
  }

  lemma BytesRoundTrip(b: seq<Byte>, index: nat, offset: nat, data: seq<Byte>)
    requires |data| < TWO_63 && At(data, index, PackNum(offset)) && At(data, offset, PackBytesSlice(b, |b|))
    ensures UnpackBytes(index, data) == Some(Raw(b))
  {
    hide ToBytes, FromBytes, LengthPrefixPointsTo, PackNum, RightPad;
    var contents := RightPad(b, (|b| + 31) / 32 * 32);
    Padded(b);
    OffsetLeads(index, offset, |b|, contents, data);
    assert data[offset + 32..offset + 32 + |b|] == data[offset + 32..offset + 32 + |contents|][..|b|];
  }

  lemma DynamicRoundTrip(t: Type, v: Value, index: nat, offset: nat, data: seq<Byte>)
    requires Supported(t) && Dynamic(t) && HasType(t, v) && |data| < TWO_63
    requires At(data, index, PackNum(offset)) && At(data, offset, PackType(t, v))
    ensures Unpack(index, t, data) == Some(v)
  {
    hide ToBytes, PackBytesSlice, PackAll, PackNum, UnpackBytes, UnpackEach, LengthPrefixPointsTo;
    if t.SliceTy? {
      SliceRoundTrip(t.elem, v.list, index, offset, data);
    } else {
      BytesRoundTrip(v.raw, index, offset, data);
    }
  }

  // ----- Argument lists

  datatype Argument = Argument(ty: Type, indexed: bool)

  ghost predicate AllTyped(ts: seq<Type>, vs: seq<Value>) {
    |ts| == |vs| && forall i :: 0 <= i < |ts| ==> HasType(ts[i], vs[i])
  }

  /** The bytes that the heads of the first i arguments take. */
  function HeadSize(ts: seq<Type>, i: nat): nat
    requires i <= |ts|
  {
    if i == 0 then 0 else HeadSize(ts, i - 1) + if ts[i - 1].ArrayTy? then 32 * ts[i - 1].size else 32
  }

  /** The tails of the first i arguments: dynamic values one after the other. */
  ghost function Tails(ts: seq<Type>, vs: seq<Value>, i: nat): seq<Byte>
    requires AllTyped(ts, vs) && i <= |ts|
  {
    if i == 0 then []
    else Tails(ts, vs, i - 1) + if Dynamic(ts[i - 1]) then PackType(ts[i - 1], vs[i - 1]) else []
  }

  /** The head of an argument: the value itself, or where its tail begins. */
  ghost function Head(ts: seq<Type>, vs: seq<Value>, i: nat): seq<Byte>
    requires AllTyped(ts, vs) && i < |ts|
  {
    if Dynamic(ts[i]) then PackNum(HeadSize(ts, |ts|) + |Tails(ts, vs, i)|) else PackType(ts[i], vs[i])
  }

  ghost function Heads(ts: seq<Type>, vs: seq<Value>, i: nat): seq<Byte>
    requires AllTyped(ts, vs) && i <= |ts|
  {
    if i == 0 then [] else Heads(ts, vs, i - 1) + Head(ts, vs, i - 1)
  }

  ghost function Packed(ts: seq<Type>, vs: seq<Value>): seq<Byte>
    requires AllTyped(ts, vs)
  {
    Heads(ts, vs, |ts|) + Tails(ts, vs, |ts|)
  }

  /** The number of elements of a fixed array, through all its dimensions. */
  function ArraySize(t: Type): nat
    requires t.ArrayTy?
  {
    t.size * if t.of.ArrayTy? then ArraySize(t.of) else 1
  }

  /** The words before an argument, as the decoder counts them. */
  function WordsBefore(ts: seq<Type>, i: nat): nat
    requires i <= |ts|
  {
    if i == 0 then 0 else WordsBefore(ts, i - 1) + if ts[i - 1].ArrayTy? then ArraySize(ts[i - 1]) else 1
  }

  function Unpacked(ts: seq<Type>, i: nat, data: seq<Byte>): Option<seq<Value>>
    requires i <= |ts|
  {
    if i == 0 then Some([])
    else
      var front := Unpacked(ts, i - 1, data);
      if front == None then None
      else
        var last := Unpack(32 * WordsBefore(ts, i - 1), ts[i - 1], data);
        if last == None then None else Some(front.value + [last.value])
  }

  lemma {:induction false} HeadsLength(ts: seq<Type>, vs: seq<Value>, i: nat)
    requires AllTyped(ts, vs) && i <= |ts| && forall k :: 0 <= k < |ts| ==> Supported(ts[k])
    ensures |Heads(ts, vs, i)| == 32 * WordsBefore(ts, i)
    decreases i
  {
    hide HasType, PackType, Dynamic, PackNum, Tails;
    if i > 0 {
      HeadsLength(ts, vs, i - 1);
      HeadLength(ts, vs, i - 1);
    }
  }

  lemma HeadLength(ts: seq<Type>, vs: seq<Value>, i: nat)
    requires AllTyped(ts, vs) && i < |ts| && Supported(ts[i])
    ensures |Head(ts, vs, i)| == 32 * (if ts[i].ArrayTy? then ArraySize(ts[i]) else 1)
  {
    if !Dynamic(ts[i]) {
      PackedSize(ts[i], vs[i]);
      SizesAgree(ts[i]);
    }
  }

  /** The offsets that Pack writes count every fixed array by its outer size only; the decoder counts
      all its elements. That matters only if anything in the list is dynamic, wherever it stands. */
  predicate Aligned(ts: seq<Type>) {
    (forall i :: 0 <= i < |ts| ==> !Dynamic(ts[i])) || HeadSize(ts, |ts|) == 32 * WordsBefore(ts, |ts|)
  }

  /** The head of an argument stands behind those before it. */
  lemma {:induction false} HeadStands(ts: seq<Type>, vs: seq<Value>, i: nat, n: nat, rest: seq<Byte>)
    requires AllTyped(ts, vs) && i < n <= |ts|
    ensures At(Heads(ts, vs, n) + rest, |Heads(ts, vs, i)|, Head(ts, vs, i))
    decreases n
  {
    hide Head, AllTyped, At;
    var front, last := Heads(ts, vs, n - 1), Head(ts, vs, n - 1);
    if i == n - 1 {
      AtWithin(front, last, rest);
    } else {
      HeadStands(ts, vs, i, n - 1, last + rest);
      assert front + (last + rest) == Heads(ts, vs, n) + rest;
    }
  }

  /** The tail of a dynamic argument stands behind those before it. */
  lemma {:induction false} TailStands(ts: seq<Type>, vs: seq<Value>, i: nat, n: nat, heads: seq<Byte>, rest: seq<Byte>)
    requires AllTyped(ts, vs) && i < n <= |ts| && Dynamic(ts[i])
    ensures At(heads + Tails(ts, vs, n) + rest, |heads| + |Tails(ts, vs, i)|, PackType(ts[i], vs[i]))
    decreases n
  {
    hide AllTyped, At, PackType, HasType, Dynamic;
    var front := Tails(ts, vs, n - 1);
    var last := Tails(ts, vs, n)[|front|..];
    assert Tails(ts, vs, n) == front + last;
    if i == n - 1 {
      AtWithin(heads + front, last, rest);
      assert heads + front + last + rest == heads + Tails(ts, vs, n) + rest;
    } else {
      TailStands(ts, vs, i, n - 1, heads, last + rest);
      assert heads + front + (last + rest) == heads + Tails(ts, vs, n) + rest;
    }
  }

  /** Every argument is read back from its place; a dynamic one through its offset. */
  lemma ArgumentRoundTrip(ts: seq<Type>, vs: seq<Value>, i: nat)
    requires AllTyped(ts, vs) && i < |ts| && forall k :: 0 <= k < |ts| ==> Supported(ts[k])
    requires |Packed(ts, vs)| < TWO_63 && Aligned(ts)
    ensures Unpack(32 * WordsBefore(ts, i), ts[i], Packed(ts, vs)) == Some(vs[i])
  {
    hide PackType, HasType, Dynamic, Unpack, At, Heads, Tails, PackNum, Supported, Static, WordsBefore, HeadSize;
    var data, heads := Packed(ts, vs), Heads(ts, vs, |ts|);
    HeadsLength(ts, vs, i);
    HeadsLength(ts, vs, |ts|);
    HeadStands(ts, vs, i, |ts|, Tails(ts, vs, |ts|));
    if Dynamic(ts[i]) {
      TailStands(ts, vs, i, |ts|, heads, []);
      assert heads + Tails(ts, vs, |ts|) + [] == data;
      DynamicRoundTrip(ts[i], vs[i], 32 * WordsBefore(ts, i), |heads| + |Tails(ts, vs, i)|, data);
    } else {
      SupportedIsStatic(ts[i]);
      StaticRoundTrip(ts[i], vs[i], 32 * WordsBefore(ts, i), data);
    }
  }

  lemma {:induction false} ArgumentsRoundTrip(ts: seq<Type>, vs: seq<Value>, i: nat)
    requires AllTyped(ts, vs) && i <= |ts| && forall k :: 0 <= k < |ts| ==> Supported(ts[k])
    requires |Packed(ts, vs)| < TWO_63 && Aligned(ts)
    ensures Unpacked(ts, i, Packed(ts, vs)) == Some(vs[..i])
    decreases i
  {
    hide Packed, HasType, Supported, Unpack, Aligned;
    if i > 0 {
      ArgumentsRoundTrip(ts, vs, i - 1);
      ArgumentRoundTrip(ts, vs, i - 1);
      assert vs[..i] == vs[..i - 1] + [vs[i - 1]];
    }
  }

  /** Unpacking what was packed gives back the arguments. */
  lemma RoundTrip(ts: seq<Type>, vs: seq<Value>)
    requires AllTyped(ts, vs) && (forall k :: 0 <= k < |ts| ==> Supported(ts[k])) && |Packed(ts, vs)| < TWO_63
             && Aligned(ts)
    ensures Unpacked(ts, |ts|, Packed(ts, vs)) == Some(vs)
  {
    ArgumentsRoundTrip(ts, vs, |ts|);
    assert vs[..|vs|] == vs;
  }

  lemma FullWords(t: Type, v: Value)
    requires Supported(t) && HasType(t, v)
    ensures |PackType(t, v)| % 32 == 0
  {
    hide *;
    if t.StringTy? || t.BytesTy? {
      RawIs(t, v);
      BytesLayout(t, v.raw, 0);
    } else if t.SliceTy? {
      SliceSize(t, v);
      WholeWords(|v.list| + 1);
    } else {
      DynamicIs(t);
      SupportedIsStatic(t);
      PackedSize(t, v);
      WholeWords(WordsOf(t));
    }
  }

  lemma RawIs(t: Type, v: Value)
    requires HasType(t, v) && (t.StringTy? || t.BytesTy?)
    ensures v.Raw?
  {
  }

  lemma DynamicIs(t: Type)
    ensures Dynamic(t) <==> t.StringTy? || t.BytesTy? || t.SliceTy?
  {
  }

  lemma SliceSize(t: Type, v: Value)
    requires Supported(t) && HasType(t, v) && t.SliceTy?
    ensures v.List? && |PackType(t, v)| == 32 * (|v.list| + 1)
  {
    hide PackType;
    SliceLayout(t.elem, v.list);
  }

  lemma WholeWords(n: nat)
    ensures 32 * n % 32 == 0
  {
  }

  lemma {:induction false} TailsFull(ts: seq<Type>, vs: seq<Value>, i: nat)
    requires AllTyped(ts, vs) && i <= |ts| && forall k :: 0 <= k < |ts| ==> Supported(ts[k])
    ensures |Tails(ts, vs, i)| % 32 == 0
    decreases i
  {
    hide PackType, HasType, Supported;
    if i > 0 {
      TailsFull(ts, vs, i - 1);
      FullWords(ts[i - 1], vs[i - 1]);
    }
  }

  /** What is packed consists of full words. Every argument has its head where the decoder looks for
      it: the value itself, or for a dynamic one an offset, which is a multiple of 32; behind all heads
      the tails follow in order. The tail stands at its offset if the list is aligned. */
  lemma PackedLayout(ts: seq<Type>, vs: seq<Value>, i: nat)
    requires AllTyped(ts, vs) && i < |ts| && forall k :: 0 <= k < |ts| ==> Supported(ts[k])
    ensures var data, offset := Packed(ts, vs), HeadSize(ts, |ts|) + |Tails(ts, vs, i)|;
            && |data| % 32 == 0 && |data| == 32 * WordsBefore(ts, |ts|) + |Tails(ts, vs, |ts|)|
            && offset % 32 == 0
            && At(data, 32 * WordsBefore(ts, i), if Dynamic(ts[i]) then ToBytes(offset, 32) else PackType(ts[i], vs[i]))
            && (Dynamic(ts[i]) ==>
                  && At(data, 32 * WordsBefore(ts, |ts|) + |Tails(ts, vs, i)|, PackType(ts[i], vs[i]))
                  && (Aligned(ts) ==> At(data, offset, PackType(ts[i], vs[i]))))
  {
    hide PackType, HasType, At, Heads, Tails, ToBytes, Supported, Static, WordsBefore, HeadSize;
    HeadsLength(ts, vs, i);
    HeadsLength(ts, vs, |ts|);
    TailsFull(ts, vs, i);
    TailsFull(ts, vs, |ts|);
    HeadSizeFull(ts, |ts|);
    HeadStands(ts, vs, i, |ts|, Tails(ts, vs, |ts|));
    if Dynamic(ts[i]) {
      TailStands(ts, vs, i, |ts|, Heads(ts, vs, |ts|), []);
      assert Packed(ts, vs) + [] == Packed(ts, vs);
    }
  }

  // ----- Where the codec is not a round trip

  function Zero(t: Type): Value
    requires Static(t)
  {
    match t
    case IntTy(_, _) => Num(0)
    case BoolTy => Bool(false)
    case AddressTy => Raw(Zeros(20))
    case FixedBytesTy(n) => Raw(Zeros(n))
    case FunctionTy => Raw(Zeros(24))
    case ArrayTy(n, e) => List(seq(n, _ => Zero(e)))
  }

  lemma {:induction false} ZeroIs(t: Type)
    requires Static(t)
    ensures HasType(t, Zero(t)) && AllZero(PackType(t, Zero(t)))
    decreases t
  {
    hide Pow256, ToBytes;
    if t.ArrayTy? {
      ZeroIs(t.of);
      ZerosPacked(t.of, t.size);
    } else if t.IntTy? {
      ZeroBytes(32);
      PowPositive(Width(t.bits));
    } else if t.BoolTy? {
      ZeroBytes(32);
    }
  }

  lemma PowPositive(k: nat)
    ensures Fits(0, k, true) && Fits(0, k, false)
  {
  }

  lemma {:induction false} ZerosPacked(e: Type, n: nat)
    requires Static(e) && HasType(e, Zero(e)) && AllZero(PackType(e, Zero(e)))
    ensures AllZero(PackAll(e, seq(n, _ => Zero(e))))
    decreases n
  {
    var vs := seq(n, _ => Zero(e));
    if n > 0 {
      ZerosPacked(e, n - 1);
      assert vs[..n - 1] == seq(n - 1, _ => Zero(e));
    }
  }

  /** A dynamic value of length one. */
  function One(t: Type): (v: Value)
    requires Supported(t) && Dynamic(t)
  {
    if t.SliceTy? then List([Zero(t.elem)]) else Raw([0])
  }

  /** Zeros, and dynamic values of length one. */
  function Sample(ts: seq<Type>): (vs: seq<Value>)
    requires forall k :: 0 <= k < |ts| ==> Supported(ts[k])
    ensures |vs| == |ts|
    ensures forall i :: 0 <= i < |ts| ==> vs[i] == SampleOf(ts[i])
  {
    seq(|ts|, i requires 0 <= i < |ts| => SampleOf(ts[i]))
  }

  function SampleOf(t: Type): Value
    requires Supported(t)
  {
    if Dynamic(t) then One(t) else Zero(t)
  }

  lemma SampleTyped(ts: seq<Type>)
    requires forall k :: 0 <= k < |ts| ==> Supported(ts[k])
    ensures AllTyped(ts, Sample(ts))
  {
    forall i | 0 <= i < |ts| ensures HasType(ts[i], Sample(ts)[i]) {
      if !Dynamic(ts[i]) {
        ZeroIs(ts[i]);
      } else if ts[i].SliceTy? {
        ZeroIs(ts[i].elem);
      }
    }
  }

  /** The number in a word of the data. */
  function WordAt(data: seq<Byte>, k: nat): nat
    requires 32 * k + 32 <= |data|
  {
    FromBytes(data[32 * k..32 * k + 32])
  }

  lemma {:induction false} ZerosRead(b: seq<Byte>)
    requires AllZero(b)
    ensures FromBytes(b) == 0
    decreases |b|
  {
    if b != [] {
      ZerosRead(b[..|b| - 1]);
    }
  }

  /** No word among the heads of the sample is the number one: it is zero or an offset. */
  lemma {:induction false} NoHeadIsOne(ts: seq<Type>, i: nat, k: nat)
    requires (forall j :: 0 <= j < |ts| ==> Supported(ts[j])) && AllTyped(ts, Sample(ts))
    requires i <= |ts| && k < WordsBefore(ts, i) && HeadSize(ts, |ts|) + |Tails(ts, Sample(ts), |ts|)| < TWO_63
    requires HeadSize(ts, |ts|) >= 32
    ensures 32 * k + 32 <= |Heads(ts, Sample(ts), i)| && WordAt(Heads(ts, Sample(ts), i), k) != 1
    decreases i
  {
    hide PackType, HasType, Dynamic, PackNum, Tails, Head, Supported, HeadSize, SampleOf;
    var vs := Sample(ts);
    HeadsLength(ts, vs, i);
    var front, last := Heads(ts, vs, i - 1), Head(ts, vs, i - 1);
    HeadsLength(ts, vs, i - 1);
    HeadLength(ts, vs, i - 1);
    assert Heads(ts, vs, i) == front + last;
    if k < WordsBefore(ts, i - 1) {
      NoHeadIsOne(ts, i - 1, k);
      assert (front + last)[32 * k..32 * k + 32] == front[32 * k..32 * k + 32];
    } else {
      var m := k - WordsBefore(ts, i - 1);
      SliceBehind(front, last, 32 * m);
      HeadIsNotOne(ts, i - 1, m);
    }
  }

  lemma SliceBehind(front: seq<Byte>, last: seq<Byte>, i: nat)
    requires i + 32 <= |last|
    ensures (front + last)[|front| + i..|front| + i + 32] == last[i..i + 32]
  {
  }

  lemma HeadIsNotOne(ts: seq<Type>, i: nat, m: nat)
    requires (forall j :: 0 <= j < |ts| ==> Supported(ts[j])) && AllTyped(ts, Sample(ts)) && i < |ts|
    requires 32 * m + 32 <= |Head(ts, Sample(ts), i)| && HeadSize(ts, |ts|) + |Tails(ts, Sample(ts), |ts|)| < TWO_63
    requires HeadSize(ts, |ts|) >= 32
    ensures WordAt(Head(ts, Sample(ts), i), m) != 1
  {
    hide ToBytes, FromBytes, Pow256, PackType, PackNum, HasType, Supported, Tails, HeadSize, Zero, Static, One,
         AllTyped;
    if Dynamic(ts[i]) {
      TailsGrow(ts, Sample(ts), i, |ts|);
      OffsetWord(HeadSize(ts, |ts|) + |Tails(ts, Sample(ts), i)|, m);
    } else {
      SupportedIsStatic(ts[i]);
      ZeroIs(ts[i]);
      ZeroWord(Head(ts, Sample(ts), i), m);
    }
  }

  lemma OffsetWord(offset: nat, m: nat)
    requires offset < TWO_63 && 32 * m + 32 <= |PackNum(offset)|
    ensures WordAt(PackNum(offset), m) == offset
  {
    hide ToBytes, FromBytes;
    ShortFits(offset);
    ReadsBack(offset, 32, false);
    assert PackNum(offset)[0..32] == ToBytes(offset, 32);
  }

  lemma ZeroWord(b: seq<Byte>, m: nat)
    requires AllZero(b) && 32 * m + 32 <= |b|
    ensures WordAt(b, m) == 0
  {
    ZerosRead(b[32 * m..32 * m + 32]);
  }

  lemma {:induction false} TailsGrow(ts: seq<Type>, vs: seq<Value>, i: nat, n: nat)
    requires AllTyped(ts, vs) && i <= n <= |ts|
    ensures |Tails(ts, vs, i)| <= |Tails(ts, vs, n)|
    decreases n
  {
    if i < n {
      TailsGrow(ts, vs, i, n - 1);
    }
  }

  lemma {:induction false} NoTailYet(ts: seq<Type>, vs: seq<Value>, i: nat)
    requires AllTyped(ts, vs) && i <= |ts| && forall k :: 0 <= k < i ==> !Dynamic(ts[k])
    ensures Tails(ts, vs, i) == []
    decreases i
  {
    if i > 0 {
      NoTailYet(ts, vs, i - 1);
    }
  }

  lemma {:induction false} SizesOrder(ts: seq<Type>, i: nat)
    requires i <= |ts| && forall k :: 0 <= k < |ts| ==> Supported(ts[k])
    ensures HeadSize(ts, i) <= 32 * WordsBefore(ts, i)
    ensures HeadSize(ts, i) == 32 * WordsBefore(ts, i) <==> forall k :: 0 <= k < i && ts[k].ArrayTy? ==>
              ArraySize(ts[k]) == ts[k].size
    decreases i
  {
    hide Supported, ArraySize;
    if i > 0 {
      SizesOrder(ts, i - 1);
      if ts[i - 1].ArrayTy? {
        AtLeastSize(ts[i - 1]);
      }
    }
  }

  lemma {:induction false} HeadSizeFull(ts: seq<Type>, i: nat)
    requires i <= |ts|
    ensures HeadSize(ts, i) % 32 == 0
    decreases i
  {
    if i > 0 {
      HeadSizeFull(ts, i - 1);
    }
  }

  lemma AtLeastSize(t: Type)
    requires Supported(t) && t.ArrayTy?
    ensures ArraySize(t) >= t.size
  {
    SizesAgree(t);
  }

  lemma {:induction false} HeadSizeAt(ts: seq<Type>, i: nat, n: nat)
    requires i < n <= |ts| && !ts[i].ArrayTy?
    ensures HeadSize(ts, n) >= 32
    decreases n
  {
    if i < n - 1 {
      HeadSizeAt(ts, i, n - 1);
    }
  }

  lemma {:induction false} SomeLength(e: Type, start: nat, step: nat, n: nat, data: seq<Byte>)
    ensures UnpackSome(e, start, step, n, data) != None ==> |UnpackSome(e, start, step, n, data).value| == n
    decreases n
  {
    if n > 0 {
      SomeLength(e, start, step, n - 1, data);
    }
  }

  lemma {:induction false} UnpackedAt(ts: seq<Type>, n: nat, data: seq<Byte>, i: nat)
    requires i < n <= |ts| && Unpacked(ts, n, data) != None
    ensures var r := Unpacked(ts, n, data).value;
            |r| == n && Unpack(32 * WordsBefore(ts, i), ts[i], data) == Some(r[i])
    decreases n
  {
    hide Unpack;
    if n > 1 && i < n - 1 {
      UnpackedAt(ts, n - 1, data, i);
    } else if n > 1 {
      UnpackedAt(ts, n - 1, data, 0);
    }
  }

  /** A length that is read from a wrong place gives a value of that length, if any. */
  lemma WrongLength(t: Type, index: nat, offset: nat, data: seq<Byte>)
    requires Supported(t) && Dynamic(t) && At(data, index, PackNum(offset)) && offset + 32 <= |data| < TWO_63
    requires FromBytes(data[offset..offset + 32]) != 1
    ensures Unpack(index, t, data) != Some(One(t))
  {
    hide ToBytes, PackNum, UnpackSome;
    ShortFits(offset);
    ReadsBack(offset, 32, false);
    PackNumIs(offset);
    if t.SliceTy? {
      SomeLength(t.elem, offset + 32, 32, FromBytes(data[offset..offset + 32]), data);
    }
  }

  lemma PackNumIs(n: int)
    ensures PackNum(n) == ToBytes(n, 32)
  {
  }

  /** When the list has something dynamic and a nested array that the two count differently, in either
      order, the codec does not give back the sample: the first offset points into the heads. */
  lemma NotARoundTrip(ts: seq<Type>)
    requires (forall k :: 0 <= k < |ts| ==> Supported(ts[k])) && !Aligned(ts)
    ensures AllTyped(ts, Sample(ts))
    ensures |Packed(ts, Sample(ts))| < TWO_63 ==> Unpacked(ts, |ts|, Packed(ts, Sample(ts))) != Some(Sample(ts))
  {
    SampleTyped(ts);
    var vs, n := Sample(ts), |ts|;
    if |Packed(ts, vs)| < TWO_63 {
      var d := FirstDynamic(ts);
      FirstOffsetMisses(ts, d);
      if Unpacked(ts, n, Packed(ts, vs)) == Some(vs) {
        UnpackedAt(ts, n, Packed(ts, vs), d);
      }
    }
  }

  lemma FirstDynamic(ts: seq<Type>) returns (d: nat)
    requires !forall i :: 0 <= i < |ts| ==> !Dynamic(ts[i])
    ensures d < |ts| && Dynamic(ts[d]) && forall k :: 0 <= k < d ==> !Dynamic(ts[k])
  {
    d := 0;
    while !Dynamic(ts[d])
      invariant d < |ts| && forall k :: 0 <= k < d ==> !Dynamic(ts[k])
      decreases |ts| - d
    {
      d := d + 1;
    }
  }

  lemma FirstOffsetMisses(ts: seq<Type>, d: nat)
    requires (forall k :: 0 <= k < |ts| ==> Supported(ts[k])) && !Aligned(ts) && AllTyped(ts, Sample(ts))
    requires d < |ts| && Dynamic(ts[d]) && (forall k :: 0 <= k < d ==> !Dynamic(ts[k]))
             && |Packed(ts, Sample(ts))| < TWO_63
    ensures Unpack(32 * WordsBefore(ts, d), ts[d], Packed(ts, Sample(ts))) != Some(Sample(ts)[d])
  {
    hide PackType, HasType, Unpack, At, Heads, Tails, PackNum, Supported, Static, WordsBefore, HeadSize, FromBytes, One,
         Zero;
    var vs, n := Sample(ts), |ts|;
    var data, heads := Packed(ts, vs), Heads(ts, vs, n);
    var offset := HeadSize(ts, n);
    NoTailYet(ts, vs, d);
    SizesOrder(ts, n);
    HeadSizeFull(ts, n);
    HeadSizeAt(ts, d, n);
    HeadsLength(ts, vs, d);
    HeadsLength(ts, vs, n);
    HeadStands(ts, vs, d, n, Tails(ts, vs, n));
    var k := offset / 32;
    NoHeadIsOne(ts, n, k);
    assert data[offset..offset + 32] == heads[32 * k..32 * k + 32];
    WrongLength(ts[d], 32 * WordsBefore(ts, d), offset, data);
  }

  /** Pack and Unpack undo each other on every list of values of supported types exactly when nothing
      in the list is dynamic or the two ways of counting its heads agree. */
  lemma RoundTripExactly(ts: seq<Type>)
    requires (forall k :: 0 <= k < |ts| ==> Supported(ts[k]))
    requires AllTyped(ts, Sample(ts)) && |Packed(ts, Sample(ts))| < TWO_63
    ensures (forall vs :: AllTyped(ts, vs) && |Packed(ts, vs)| < TWO_63 ==>
             Unpacked(ts, |ts|, Packed(ts, vs)) == Some(vs))
            <==> Aligned(ts)
  {
    hide Packed, Unpacked, Aligned, AllTyped;
    if Aligned(ts) {
      forall vs | AllTyped(ts, vs) && |Packed(ts, vs)| < TWO_63 ensures Unpacked(ts, |ts|, Packed(ts, vs)) == Some(vs) {
        RoundTrip(ts, vs);
      }
    } else {
      NotARoundTrip(ts);
    }
  }

  // ----- The loops

  /** Packs one value; lists element by element. */
  method PackValue(t: Type, v: Value) returns (b: seq<Byte>)
    requires HasType(t, v)
    ensures b == PackType(t, v)
    ensures Supported(t) ==> |b| % 32 == 0
    ensures t.StringTy? || t.BytesTy? ==>
              && 32 + |v.raw| <= |b| < 64 + |v.raw| && b[..32] == ToBytes(|v.raw|, 32)
              && b[32..32 + |v.raw|] == v.raw && AllZero(b[32 + |v.raw|..])
    decreases t
  {
    hide ToBytes;
    if Supported(t) {
      FullWords(t, v);
    }
    if t.StringTy? || t.BytesTy? {
      BytesLayout(t, v.raw, 0);
    }
    if t.SliceTy? || t.ArrayTy? {
      var e := if t.SliceTy? then t.elem else t.of;
      b := [];
      for i := 0 to |v.list|
        invariant b == PackAll(e, v.list[..i])
      {
        assert v.list[..i + 1][..i] == v.list[..i];
        var val := PackValue(e, v.list[i]);
        b := b + val;
      }
      assert v.list[..|v.list|] == v.list;
      if t.SliceTy? {
        b := PackBytesSlice(b, |v.list|);
      }
    } else {
      b := PackType(t, v);
    }
  }

  function Types(args: seq<Argument>): (ts: seq<Type>)
    ensures |ts| == |args| && forall i :: 0 <= i < |args| ==> ts[i] == args[i].ty
  {
    seq(|args|, i requires 0 <= i < |args| => args[i].ty)
  }

  /** Packs arguments: all heads, then all tails. It fails when the number or the type of a value
      does not fit. */
  method Pack(args: seq<Argument>, vs: seq<Value>) returns (r: Option<seq<Byte>>)
    ensures r != None <==> AllTyped(Types(args), vs)
    ensures r != None ==> r.value == Packed(Types(args), vs)
    ensures r != None && (forall i :: 0 <= i < |args| ==> Supported(args[i].ty)) ==> |r.value| % 32 == 0
  {
    hide HasType, PackType, PackNum, Supported;
    if |vs| != |args| {
      return None;
    }
    var ts := Types(args);
    var inputOffset := 0;
    for i := 0 to |args|
      invariant inputOffset == HeadSize(ts, i)
    {
      if args[i].ty.ArrayTy? {
        inputOffset := inputOffset + 32 * args[i].ty.size;
      } else {
        inputOffset := inputOffset + 32;
      }
    }
    if i :| 0 <= i < |vs| && !HasType(args[i].ty, vs[i]) {
      return None;
    }
    assert AllTyped(ts, vs);
    var ret, variableInput := [], [];
    for i := 0 to |vs|
      invariant ret == Heads(ts, vs, i) && variableInput == Tails(ts, vs, i)
    {
      var packed := PackValue(args[i].ty, vs[i]);
      if Dynamic(args[i].ty) {
        var offset := inputOffset + |variableInput|;
        ret := ret + PackNum(offset);
        variableInput := variableInput + packed;
      } else {
        ret := ret + packed;
      }
    }
    r := Some(ret + variableInput);
    if |args| > 0 && forall i :: 0 <= i < |args| ==> Supported(args[i].ty) {
      PackedLayout(ts, vs, 0);
    }
  }

  method GetArraySize(t: Type) returns (size: nat)
    requires t.ArrayTy?
    ensures size == ArraySize(t)
  {
    size := t.size;
    var arr := t.of;
    while arr.ArrayTy?
      invariant ArraySize(t) == size * if arr.ArrayTy? then ArraySize(arr) else 1
      decreases arr
    {
      ghost var rest := if arr.of.ArrayTy? then ArraySize(arr.of) else 1;
      assert size * (arr.size * rest) == size * arr.size * rest;
      size := size * arr.size;
      arr := arr.of;
    }
  }

  method GetFullElemSize(e: Type) returns (size: nat)
    ensures size == FullElemSize(e)
  {
    size := 32;
    var elem := e;
    while elem.ArrayTy?
      invariant 32 * FullElemSize(e) == size * FullElemSize(elem)
      decreases elem
    {
      assert size * (elem.size * FullElemSize(elem.of)) == size * elem.size * FullElemSize(elem.of);
      size := size * elem.size;
      elem := elem.of;
    }
  }

  method ToGoType(index: nat, t: Type, data: seq<Byte>) returns (r: Option<Value>)
    ensures r == Unpack(index, t, data)
    decreases t, 0
  {
    hide LengthPrefixPointsTo, ReadWord, FromBytes;
    if index + 32 > |data| {
      return None;
    }
    if t.SliceTy? {
      var p := LengthPrefixPointsTo(index, data);
      if p == None {
        return None;
      }
      var vs := ForEachUnpack(t.elem, p.value.0, 32, p.value.1, data);
      return AsList(vs);
    }
    if t.ArrayTy? {
      var step := GetFullElemSize(t.of);
      var vs := ForEachUnpack(t.of, index, step, t.size, data);
      return AsList(vs);
    }
    r := Unpack(index, t, data);
  }

  method ForEachUnpack(e: Type, start: nat, step: nat, size: nat, data: seq<Byte>) returns (r: Option<seq<Value>>)
    ensures r == UnpackEach(e, start, step, size, data)
    decreases e, 1
  {
    hide Unpack;
    if start + 32 * size > |data| {
      return None;
    }
    var vs: seq<Value> := [];
    var i, j := start, 0;
    while j < size
      invariant j <= size && i == start + j * step && UnpackSome(e, start, step, j, data) == Some(vs)
    {
      var inter := ToGoType(i, e, data);
      if inter == None {
        NoneStays(e, start, step, j + 1, size, data);
        return None;
      }
      vs := vs + [inter.value];
      assert (j + 1) * step == j * step + step;
      i, j := i + step, j + 1;
    }
    r := Some(vs);
  }

  lemma {:induction false} NoneStays(e: Type, start: nat, step: nat, j: nat, size: nat, data: seq<Byte>)
    requires j <= size && UnpackSome(e, start, step, j, data) == None
    ensures UnpackSome(e, start, step, size, data) == None
    decreases size
  {
    if j < size {
      NoneStays(e, start, step, j, size - 1, data);
    }
  }

  /** Unpacks the arguments that are not indexed. A fixed array takes as many words as it has
      elements, so the later arguments are shifted. */
  method UnpackValues(args: seq<Argument>, data: seq<Byte>) returns (r: Option<seq<Value>>)
    ensures var ts := Types(NonIndexed(args)); r == Unpacked(ts, |ts|, data)
  {
    hide Unpack, ArraySize;
    var shown := NonIndexed(args);
    var ts := Types(shown);
    var ret: seq<Value> := [];
    var virtualArgs := 0;
    for index := 0 to |shown|
      invariant index + virtualArgs == WordsBefore(ts, index)
      invariant Unpacked(ts, index, data) == Some(ret)
    {
      var value := ToGoType((index + virtualArgs) * 32, shown[index].ty, data);
      if shown[index].ty.ArrayTy? {
        var size := GetArraySize(shown[index].ty);
        virtualArgs := virtualArgs + size - 1;
      }
      if value == None {
        FailureStays(ts, index + 1, |ts|, data);
        return None;
      }
      ret := ret + [value.value];
    }
    r := Some(ret);
  }

  function NonIndexed(args: seq<Argument>): seq<Argument> {
    if args == [] then []
    else NonIndexed(args[..|args| - 1]) + if args[|args| - 1].indexed then [] else [args[|args| - 1]]
  }

  /** The arguments that are not indexed, in their order. */
  lemma {:induction false} NonIndexedParts(a: seq<Argument>, b: seq<Argument>, x: Argument)
    ensures NonIndexed(a + b) == NonIndexed(a) + NonIndexed(b)
    ensures NonIndexed([x]) == if x.indexed then [] else [x]
    decreases |b|
  {
    assert [x][..0] == [];
    if b == [] {
      assert a + b == a;
    } else {
      var front, last := b[..|b| - 1], b[|b| - 1];
      NonIndexedParts(a, front, x);
      assert (a + b)[..|a + b| - 1] == a + front;
    }
  }

  lemma {:induction false} FailureStays(ts: seq<Type>, i: nat, n: nat, data: seq<Byte>)
    requires i <= n <= |ts| && Unpacked(ts, i, data) == None
    ensures Unpacked(ts, n, data) == None
    decreases n
  {
    if i < n {
      FailureStays(ts, i, n - 1, data);
    }
  }

  lemma {:induction false} NoneIndexed(args: seq<Argument>)
    requires forall i :: 0 <= i < |args| ==> !args[i].indexed
    ensures NonIndexed(args) == args
    decreases |args|
  {
    if args != [] {
      NoneIndexed(args[..|args| - 1]);
    }
  }

  /** The codec over its domain: what Pack packs, UnpackValues gives back. */
  method PackAndUnpack(args: seq<Argument>, vs: seq<Value>) returns (packed: Option<seq<Byte>>, r: Option<seq<Value>>)
    requires (forall i :: 0 <= i < |args| ==> !args[i].indexed && Supported(args[i].ty)) && Aligned(Types(args))
    ensures packed != None && |packed.value| < TWO_63 ==> r == Some(vs)
  {
    packed := Pack(args, vs);
    r := None;
    if packed != None {
      r := UnpackValues(args, packed.value);
      NoneIndexed(args);
      if |packed.value| < TWO_63 {
        RoundTrip(Types(args), vs);
      }
    }
  }
}
