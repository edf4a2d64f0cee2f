/** `hmath.h`: rounding to powers of two, and little-endian base-128 integers. */
module HMath {
  import opened Common

  function Pow2(n: nat): (p: nat)
    ensures p >= 1
  {
    if n == 0 then 1 else 2 * Pow2(n - 1)
  }

  lemma {:induction false} Pow2Monotone(m: nat, n: nat)
    requires m <= n
    ensures Pow2(m) <= Pow2(n) && (m < n ==> 2 * Pow2(m) <= Pow2(n))
  {
    if m < n { Pow2Monotone(m, n - 1); }
  }

  lemma {:induction false} Pow2Adds(m: nat, n: nat)
    ensures Pow2(m + n) == Pow2(m) * Pow2(n)
  {
    if m > 0 { Pow2Adds(m - 1, n); }
  }

  // ---- powers of two around a number

  /** The exponent of the leading bit. */
  function Log2(n: nat): nat
  {
    if n < 2 then 0 else 1 + Log2(n / 2)
  }

  lemma {:induction false} Log2Bounds(n: nat)
    requires n >= 1
    ensures Pow2(Log2(n)) <= n < 2 * Pow2(Log2(n))
  {
    if n >= 2 { Log2Bounds(n / 2); }
  }

  predicate IsPow2(p: nat) { exists k: nat :: k <= p && p == Pow2(k) }

  lemma {:induction false} ExponentSmall(k: nat)
    ensures k <= Pow2(k)
  {
    if k > 0 { ExponentSmall(k - 1); }
  }

  /** Doubles 1 `e` times in a word of `w` bits: the value leaves the word at `w` doublings. */
  method ShiftOne(e: nat, w: nat) returns (ret: nat)
    requires w >= 1
    ensures ret == if e < w then Pow2(e) else 0
  {
    ret := 1;
    var left := e;
    while left > 0
      invariant 0 <= left <= e
      invariant ret == if e - left < w then Pow2(e - left) else 0
    {
      ret := ret * 2;
      if ret >= Pow2(w) {
        ret := ret - Pow2(w);
      }
      if e - left + 1 < w {
        Pow2Monotone(e - left + 1, w);
      }
      left := left - 1;
    }
  }

  /** The greatest power of two at most `num`, in a word of `w` bits. */
  method Floor2e(num: nat, w: nat) returns (ret: nat)
    requires w >= 1 && num < Pow2(w)
    ensures num >= 1 ==> IsPow2(ret) && ret <= num
    ensures num >= 1 ==> forall k: nat :: Pow2(k) <= num ==> Pow2(k) <= ret
    ensures num >= 1 ==> num < 2 * ret && ret == Pow2(Log2(num))
    ensures num == 0 ==> ret == 1
  {
    var n: nat := num;
    var e := 0;
    n := n / 2;
    while n > 0
      invariant Log2(num) == e + if n == 0 then 0 else 1 + Log2(n)
    {
      e := e + 1;
      n := n / 2;
    }
    if num >= 1 {
      Log2Bounds(num);
      if e >= w { Pow2Monotone(w, e); }
      ExponentSmall(e);
      forall k: nat | Pow2(k) <= num ensures Pow2(k) <= Pow2(e) {
        if k > e { Pow2Monotone(e, k); } else { Pow2Monotone(k, e); }
      }
    }
    ret := ShiftOne(e, w);
  }

  /** The least power of two at least `num`, as long as `num` is at most half the word range;
      beyond that the result is 0. For `num >= 2` it is twice the floor of `num - 1`. */
  method Ceil2e(num: nat, w: nat) returns (ret: nat)
    requires w >= 1 && num < Pow2(w)
    ensures ret == 0 <==> num > Pow2(w - 1)
    ensures num <= Pow2(w - 1) ==> IsPow2(ret) && num <= ret < Pow2(w)
    ensures num <= Pow2(w - 1) ==> forall k: nat :: num <= Pow2(k) ==> ret <= Pow2(k)
    ensures 2 <= num <= Pow2(w - 1) ==> ret == 2 * Pow2(Log2(num - 1))
  {
    assert Pow2(0) == 1 && IsPow2(1);
    Pow2Monotone(w - 1, w);
    if num == 0 || num == 1 {
      return 1;
    }
    var n: nat := num - 1;
    var e := 1;
    n := n / 2;
    while n > 0
      invariant Log2(num - 1) + 1 == e + if n == 0 then 0 else 1 + Log2(n)
    {
      e := e + 1;
      n := n / 2;
    }
    ret := ShiftOne(e, w);
    hide Pow2, IsPow2, Log2;
    LeastPow2(num, w, e);
  }

  /** The power after the leading bit of `num - 1` is the least one at least `num`. */
  lemma LeastPow2(num: nat, w: nat, e: nat)
    requires num >= 2 && w >= 1 && e == Log2(num - 1) + 1
    ensures e < w <==> num <= Pow2(w - 1)
    ensures num <= Pow2(e) == 2 * Pow2(e - 1) && IsPow2(Pow2(e)) && (e < w ==> Pow2(e) < Pow2(w))
    ensures forall k: nat :: num <= Pow2(k) ==> Pow2(e) <= Pow2(k)
  {
    Log2Bounds(num - 1);
    ExponentSmall(e);
    assert Pow2(e) == 2 * Pow2(e - 1);
    forall k: nat | num <= Pow2(k) ensures Pow2(e) <= Pow2(k) {
      if k < e { Pow2Monotone(k, e - 1); } else { Pow2Monotone(e, k); }
    }
    if e < w {
      Pow2Monotone(e, w - 1);
      Pow2Monotone(e, w);
    } else {
      Pow2Monotone(w - 1, e - 1);
    }
  }

  // ---- varints

  const INT64_RANGE := 0x1_0000_0000_0000_0000
  const INT64_HALF := 0x8000_0000_0000_0000

  /** `x` as a signed 64-bit number. */
  function Wrap64(x: nat): int
  {
    var u := x % INT64_RANGE;
    if u < INT64_HALF then u else u - INT64_RANGE
  }

  /** It is the one number of that range that differs by a multiple of 2^64. */
  lemma Wrap64Means(x: nat)
    ensures -0x8000_0000_0000_0000 <= Wrap64(x) < 0x8000_0000_0000_0000
    ensures (x - Wrap64(x)) % 0x1_0000_0000_0000_0000 == 0
  {
  }

  function Pow128(n: nat): (p: nat)
    ensures p >= 1
  {
    if n == 0 then 1 else 128 * Pow128(n - 1)
  }

  /** The value of base-128 digits, least significant first, continuation bits ignored. */
  function Value(bs: seq<byte>): nat
  {
    if bs == [] then 0 else bs[0] % 128 + 128 * Value(bs[1..])
  }

  /** Well-formed: exactly the last byte has a clear continuation bit. */
  predicate Framed(bs: seq<byte>)
  {
    && bs != []
    && bs[|bs| - 1] < 128
    && forall i :: 0 <= i < |bs| - 1 ==> bs[i] >= 128
  }

  lemma {:induction false} ValueSnoc(bs: seq<byte>, b: byte)
    ensures Value(bs + [b]) == Value(bs) + (b % 128) * Pow128(|bs|)
  {
    if bs == [] {
      assert bs + [b] == [b];
      assert Value([b]) == b % 128 + 128 * Value([]);
    } else {
      assert (bs + [b])[1..] == bs[1..] + [b];
      ValueSnoc(bs[1..], b);
    }
  }

  lemma {:induction false} ValueBound(bs: seq<byte>)
    ensures Value(bs) < Pow128(|bs|)
  {
    if bs != [] { ValueBound(bs[1..]); }
  }

  function VarintBytes(v: nat): (bs: seq<byte>)
    ensures bs != []
  {
    if v < 128 then [v] else [128 + v % 128] + VarintBytes(v / 128)
  }

  /** An encoding is well-formed, has the value it came from, and no shorter one has. */
  lemma {:induction false} VarintBytesRight(v: nat)
    ensures var bs := VarintBytes(v);
            && Framed(bs) && Value(bs) == v
            && v < Pow128(|bs|) && (|bs| > 1 ==> v >= Pow128(|bs| - 1))
  {
    var bs := VarintBytes(v);
    if v < 128 {
      assert Value(bs) == v % 128 + 128 * Value(bs[1..]);
      assert Pow128(1) == 128;
    } else {
      VarintBytesRight(v / 128);
      assert bs[1..] == VarintBytes(v / 128);
      assert Pow128(0) == 1;
    }
  }

  lemma VarintMinimal(v: nat, other: seq<byte>)
    requires Framed(other) && Value(other) == v
    ensures |VarintBytes(v)| <= |other|
  {
    VarintBytesRight(v);
    ValueBound(other);
    var n := |VarintBytes(v)| - 1;
    Pow128Monotone(Min(|other|, n), n);
  }

  lemma {:induction false} Pow128Monotone(m: nat, n: nat)
    requires m <= n
    ensures Pow128(m) <= Pow128(n)
  {
    if m < n { Pow128Monotone(m, n - 1); }
  }

  lemma NineBytes()
    ensures Pow128(9) == INT64_HALF
  {
    assert Pow128(3) == 0x20_0000;
    assert Pow128(6) == 0x400_0000_0000;
  }

  lemma VarintAtMostNine(v: nat)
    requires v < INT64_HALF
    ensures |VarintBytes(v)| <= 9
  {
    NineBytes();
    VarintBytesRight(v);
    if |VarintBytes(v)| > 9 {
      Pow128Monotone(9, |VarintBytes(v)| - 1);
    }
  }

  /** The encode loop shifts until nothing is left; that happens exactly for values that are not
      negative: an arithmetic shift never brings a negative value to 0. */
  function ShiftBy7(v: int, times: nat): int
    decreases times
  {
    if times == 0 then v else ShiftBy7(v / 128, times - 1)
  }

  lemma {:induction false} ShiftStaysNegative(v: int, times: nat)
    requires v < 0
    ensures ShiftBy7(v, times) < 0
    decreases times
  {
    if times > 0 { ShiftStaysNegative(v / 128, times - 1); }
  }

  lemma {:induction false} ShiftVanishes(v: nat)
    ensures ShiftBy7(v, |VarintBytes(v)|) == 0
  {
    if v < 128 {
      assert ShiftBy7(v, 1) == ShiftBy7(v / 128, 0);
    } else {
      ShiftVanishes(v / 128);
    }
  }

  lemma EncodeEndsExactly(v: int)
    ensures (exists times: nat :: ShiftBy7(v, times) == 0) <==> v >= 0
  {
    if v >= 0 {
      ShiftVanishes(v);
    } else {
      forall times: nat ensures ShiftBy7(v, times) != 0 { ShiftStaysNegative(v, times); }
    }
  }

  method VarintEncode(value: nat, buf: array<byte>, at: nat) returns (bytes: nat)
    requires value < INT64_HALF && at + |VarintBytes(value)| <= buf.Length
    modifies buf
    ensures 1 <= bytes <= 9
    ensures at + bytes <= buf.Length
    ensures buf[at..at + bytes] == VarintBytes(value)
    ensures buf[..at] == old(buf[..at]) && buf[at + bytes..] == old(buf[at + bytes..])
  {
    VarintAtMostNine(value);
    bytes := 0;
    var v: nat := value;
    var more := true;
    while more
      invariant at + bytes <= buf.Length
      invariant more ==> buf[at..at + bytes] + VarintBytes(v) == VarintBytes(value)
      invariant !more ==> buf[at..at + bytes] == VarintBytes(value)
      invariant buf[..at] == old(buf[..at]) && buf[at + bytes..] == old(buf[at + bytes..])
      decreases more, v
    {
      ghost var written := buf[at..at + bytes];
      var ch: byte := v % 128;
      v := v / 128;
      buf[at + bytes] := if v == 0 then ch else ch + 128;
      bytes := bytes + 1;
      assert buf[at..at + bytes] == written + [buf[at + bytes - 1]];
      more := v != 0;
    }
  }

  /** The index of the first byte with a clear continuation bit, or the length. */
  function FirstEnd(bs: seq<byte>): (e: nat)
    ensures e <= |bs|
    ensures forall i :: 0 <= i < e ==> bs[i] >= 128
    ensures e < |bs| ==> bs[e] < 128
  {
    if bs == [] || bs[0] < 128 then 0 else 1 + FirstEnd(bs[1..])
  }

  lemma ValueNext(buf: seq<byte>, n: nat)
    requires n < |buf|
    ensures Value(buf[..n + 1]) == Value(buf[..n]) + buf[n] % 128 * Pow128(n)
  {
    ValueSnoc(buf[..n], buf[n]);
    assert buf[..n + 1] == buf[..n] + [buf[n]];
  }

  /** `len` is the length passed in, 0 meaning no limit; `got` is the length passed back: the
      bytes used, 0 if the limit came first, -1 if ten bytes held no end. */
  method VarintDecode(buf: seq<byte>, len: nat) returns (ret: int, got: int)
    requires (0 < len <= |buf|) || |buf| >= 10 || FirstEnd(buf) < |buf|
    ensures var e := FirstEnd(buf);
            if e < 10 && e < |buf| && (len == 0 || e < len) then got == e + 1 && ret == Wrap64(Value(buf[..e + 1]))
            else if 0 < len < 10 then got == 0 && ret == 0
            else got == -1 && |buf| >= 10 && ret == Wrap64(Value(buf[..10]))
  {
    ret := 0;
    var bytes := 0;
    var scale: nat := 1;  // the shift distance, as a power
    while bytes < 10
      invariant 0 <= bytes <= 10 && bytes <= |buf| && bytes <= FirstEnd(buf)
      invariant len != 0 ==> bytes <= len
      invariant scale == Pow128(bytes)
      invariant ret == Wrap64(Value(buf[..bytes]))
    {
      if len != 0 && bytes == len {
        return 0, 0;
      }
      var b := buf[bytes];
      ValueNext(buf, bytes);
      // the shifted bits lie above all bits set so far, so the bitwise or is a sum
      var digit: nat := b % 128;
      WrapAdds(Value(buf[..bytes]), digit * scale);
      ret := Wrap64((if ret < 0 then ret + INT64_RANGE else ret) + digit * scale);
      bytes := bytes + 1;
      if b < 128 {
        return ret, bytes;
      }
      scale := scale * 128;
    }
    got := -1;
  }

  lemma WrapAdds(x: nat, y: nat)
    ensures var r := Wrap64(x);
            Wrap64((if r < 0 then r + INT64_RANGE else r) + y) == Wrap64(x + y)
  {
    var u := x % INT64_RANGE;
    assert (u + y) % INT64_RANGE == (x + y) % INT64_RANGE by {
      var q := x / INT64_RANGE;
      assert x + y == (u + y) + INT64_RANGE * q;
      ModShift(u + y, q);
    }
  }

  lemma {:induction false} ModShift(a: nat, q: nat)
    ensures (a + INT64_RANGE * q) % INT64_RANGE == a % INT64_RANGE
  {
    if q > 0 { ModShift(a, q - 1); }
  }

  function EncodeAll(vs: seq<nat>): seq<byte>
  {
    if vs == [] then [] else VarintBytes(vs[0]) + EncodeAll(vs[1..])
  }

  /** In front of any further bytes an encoding ends where it should. */
  lemma FirstEndOfEncoding(v: nat, rest: seq<byte>)
    ensures FirstEnd(VarintBytes(v) + rest) == |VarintBytes(v)| - 1
  {
    VarintBytesRight(v);
    var bs := VarintBytes(v);
    var e := FirstEnd(bs + rest);
    assert (bs + rest)[|bs| - 1] == bs[|bs| - 1];
    assert e < |bs| ==> (bs + rest)[e] == bs[e];
  }

  lemma {:induction false} EncodeAllSplit(vs: seq<nat>, k: nat)
    requires k < |vs|
    ensures EncodeAll(vs[k..]) == VarintBytes(vs[k]) + EncodeAll(vs[k + 1..])
  {
    assert vs[k..][1..] == vs[k + 1..];
  }

  /** Decoding at the start of an encoding gives back its value and its exact length. */
  method DecodeOne(buf: seq<byte>, ghost v: nat, ghost rest: seq<byte>) returns (x: int, used: int)
    requires v < INT64_HALF && buf == VarintBytes(v) + rest
    ensures x == v && used == |VarintBytes(v)|
  {
    VarintBytesRight(v);
    VarintAtMostNine(v);
    FirstEndOfEncoding(v, rest);
    assert buf[..|VarintBytes(v)|] == VarintBytes(v);
    x, used := VarintDecode(buf, |buf|);
  }

  /** Any list of values that are not negative comes back from the concatenation of its encodings. */
  method DecodeStream(buf: seq<byte>, ghost vs: seq<nat>) returns (out: seq<int>)
    requires buf == EncodeAll(vs) && forall i :: 0 <= i < |vs| ==> vs[i] < INT64_HALF
    ensures out == vs
  {
    out := [];
    var left := buf;
    while left != []
      invariant |out| <= |vs| && out == vs[..|out|] && left == EncodeAll(vs[|out|..])
      decreases |left|
    {
      ghost var k := |out|;
      assert k < |vs|;
      EncodeAllSplit(vs, k);
      var x, used := DecodeOne(left, vs[k], EncodeAll(vs[k + 1..]));
      left := left[used..];
      out := out + [x];
    }
    if |out| < |vs| {
      EncodeAllSplit(vs, |out|);
    }
  }

  /** Every proper non-empty prefix of an encoding is reported as too short. */
  method DecodePrefix(v: nat, k: nat) returns (ret: int, got: int)
    requires v < INT64_HALF && 0 < k < |VarintBytes(v)|
    ensures got == 0 && ret == 0
  {
    VarintBytesRight(v);
    VarintAtMostNine(v);
    var cut := VarintBytes(v)[..k];
    assert FirstEnd(cut) == k;
    ret, got := VarintDecode(cut, k);
  }
}
