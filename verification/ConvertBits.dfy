/** The bit regrouping loop of stakeaddr.go. */
module ConvertBits {
  import opened Bits
  import opened Wrappers

  const WORD: nat := 32

  type Byte = n: nat | n < 256

  predicate Fits(data: seq<Byte>, width: nat) {
    forall i :: 0 <= i < |data| ==> data[i] < Pow2(width)
  }

  /** The bit string that `data` spells, `width` bits to an element. */
  function BitString(data: seq<Byte>, width: nat): seq<bool> {
    if data == [] then []
    else BitString(data[..|data| - 1], width) + Low(data[|data| - 1], width)
  }

  lemma Assoc(a: seq<bool>, b: seq<bool>, c: seq<bool>)
    ensures (a + b) + c == a + (b + c)
  {}

  lemma BitStringSnoc(data: seq<Byte>, b: Byte, width: nat)
    ensures BitString(data + [b], width) == BitString(data, width) + Low(b, width)
  {
    assert (data + [b])[..|data|] == data;
  }

  lemma BitStringNext(data: seq<Byte>, i: nat, width: nat)
    requires i < |data|
    ensures BitString(data[..i + 1], width) == BitString(data[..i], width) + Low(data[i], width)
  {
    assert data[..i + 1] == data[..i] + [data[i]];
    BitStringSnoc(data[..i], data[i], width);
  }

  /** What is left of `n` items after taking away as many whole groups of `width` as fit. */
  function Leftover(n: nat, width: nat): (r: nat)
    requires width >= 1
    ensures r < width && r <= n
  {
    if n < width then n else Leftover(n - width, width)
  }

  lemma {:induction false} LeftoverWhole(data: seq<Byte>, width: nat, extra: nat)
    requires width >= 1
    ensures Leftover(|BitString(data, width)| + extra, width) == Leftover(extra, width)
  {
    if data != [] {
      LeftoverWhole(data[..|data| - 1], width, extra);
    }
  }

  /** Cut a bit string into elements of `width` bits. */
  function Group(bs: seq<bool>, width: nat): (data: seq<Byte>)
    requires 1 <= width <= 8 && Leftover(|bs|, width) == 0
    ensures Fits(data, width)
  {
    if bs == [] then []
    else
      var k := |bs| - width;
      Pow2Monotone(width, 8);
      Group(bs[..k], width) + [Number(bs[k..])]
  }

  lemma NumberIsByte(bs: seq<bool>)
    requires |bs| <= 8
    ensures Number(bs) < 256
  {
    Pow2Monotone(|bs|, 8);
  }

  lemma {:induction false} GroupSpells(bs: seq<bool>, width: nat)
    requires 1 <= width <= 8 && Leftover(|bs|, width) == 0
    ensures BitString(Group(bs, width), width) == bs
  {
    hide Low, Number, Fits;
    if bs != [] {
      var k := |bs| - width;
      NumberIsByte(bs[k..]);
      var front, last: Byte := Group(bs[..k], width), Number(bs[k..]);
      BitStringSnoc(front, last, width);
      GroupSpells(bs[..k], width);
      LowOfNumber(bs[k..]);
      assert bs[..k] + bs[k..] == bs;
    }
  }

  /** The only elements that spell `bs` are the ones `Group` cuts out. */
  lemma {:induction false} GroupUnique(data: seq<Byte>, width: nat)
    requires 1 <= width <= 8 && Fits(data, width)
    ensures Leftover(|BitString(data, width)|, width) == 0
    ensures Group(BitString(data, width), width) == data
  {
    hide Low, Number, Pow2;
    LeftoverWhole(data, width, 0);
    if data != [] {
      var n := |data| - 1;
      var front, last := BitString(data[..n], width), Low(data[n], width);
      calc {
        Group(BitString(data, width), width);
        Group(front + last, width);
        { assert (front + last)[..|front|] == front && (front + last)[|front|..] == last; }
        Group(front, width) + [Number(last)];
        { GroupUnique(data[..n], width); NumberOfLow(data[n], width); }
        data[..n] + [data[n]];
        data;
      }
    }
  }

  /** Bits missing to a whole number of groups. */
  function Missing(n: nat, width: nat): (p: nat)
    requires width >= 1
    ensures p < width && Leftover(n + p, width) == 0
  {
    if n == 0 then 0 else if n < width then width - n else Missing(n - width, width)
  }

  /** What regrouping means: the output spells the same bits as the input, up to
      zero bits at the end.  With padding those are added to fill the last element;
      without, the leftover bits must be zero and fewer than one input element. */
  function Regroup(data: seq<Byte>, from: nat, to: nat, pad: bool): Option<seq<Byte>>
    requires 1 <= from <= 8 && 1 <= to <= 8
  {
    var bs := BitString(data, from);
    if pad then
      Some(Group(bs + Zeros(Missing(|bs|, to)), to))
    else
      var rest := Leftover(|bs|, to);
      var k := |bs| - rest;
      LeftoverMinus(|bs|, to);
      if rest >= from || bs[k..] != Zeros(rest) then None else Some(Group(bs[..k], to))
  }

  lemma {:induction false} LeftoverMinus(n: nat, width: nat)
    requires width >= 1
    ensures Leftover(n - Leftover(n, width), width) == 0
  {
    if n >= width { LeftoverMinus(n - width, width); }
  }

  lemma {:induction false} MissingWhole(data: seq<Byte>, width: nat, extra: nat)
    requires extra < width
    ensures Missing(|BitString(data, width)| + extra, width) == if extra == 0 then 0 else width - extra
  {
    if data != [] {
      MissingWhole(data[..|data| - 1], width, extra);
    }
  }

  /** The elements read so far spell those written plus the `bits` bits still held. */
  ghost predicate Carried(read: seq<Byte>, from: nat, out: seq<Byte>, to: nat, held: seq<bool>) {
    Fits(out, to) && BitString(read, from) == BitString(out, to) + held
  }

  /** The source's accumulator loop over a wrapping 32-bit word. */
  method Convert(data: seq<Byte>, from: nat, to: nat, pad: bool) returns (r: Option<seq<Byte>>)
    requires 1 <= from <= 8 && 1 <= to <= 8
    requires Fits(data, from)
    ensures r == Regroup(data, from, to, pad)
  {
    var acc: nat, bits: nat, out: seq<Byte> := 0, 0, [];
    for i := 0 to |data|
      invariant bits < to
      invariant Carried(data[..i], from, out, to, Low(acc, bits))
    {
      ghost var acc0, bits0 := acc, bits;
      acc := Mask(Shl(acc, from), WORD) + data[i];
      bits := bits + from;
      ShiftIn(WORD, acc0, data[i], bits0, from, acc, bits);
      Absorb(data, i, from, out, to, Low(acc0, bits0), Low(acc, bits));
      while bits >= to
        invariant Carried(data[..i + 1], from, out, to, Low(acc, bits))
      {
        ghost var before := bits;
        bits := bits - to;
        var v := Mask(Shr(acc, bits), to);
        ShiftOut(acc, to, before, bits, v);
        Emit(data[..i + 1], from, out, to, Low(acc, before), v, Low(acc, bits));
        out := out + [v];
      }
    }
    assert data[..|data|] == data;
    Finish(data, from, out, to, acc, bits, pad);
    var last: Byte := Tail(acc, bits, to);
    if pad {
      if bits > 0 {
        out := out + [last];
      }
    } else if bits >= from || last != 0 {
      return None;
    }
    return Some(out);
  }

  /** The source's `(acc << (to - bits)) & maxv`. */
  function Tail(acc: nat, bits: nat, to: nat): nat
    requires bits <= to
  {
    Mask(Mask(Shl(acc, to - bits), WORD), to)
  }

  lemma Finish(data: seq<Byte>, from: nat, out: seq<Byte>, to: nat, acc: nat, bits: nat, pad: bool)
    requires 1 <= from <= 8 && bits < to <= 8
    requires Carried(data, from, out, to, Low(acc, bits))
    ensures Tail(acc, bits, to) < 256
    ensures Regroup(data, from, to, pad) ==
      if pad then Some(if bits > 0 then out + [Tail(acc, bits, to)] else out)
      else if bits >= from || Tail(acc, bits, to) != 0 then None else Some(out)
  {
    Padding(WORD, acc, bits, to, Tail(acc, bits, to));
    if pad {
      FinishPadded(data, out, Low(acc, bits), Tail(acc, bits, to), from, to);
    } else {
      FinishExact(data, out, Low(acc, bits), from, to);
    }
  }

  lemma Absorb(data: seq<Byte>, i: nat, from: nat, out: seq<Byte>, to: nat, held: seq<bool>, held': seq<bool>)
    requires i < |data|
    requires Carried(data[..i], from, out, to, held)
    requires held' == held + Low(data[i], from)
    ensures Carried(data[..i + 1], from, out, to, held')
  {
    BitStringNext(data, i, from);
    Assoc(BitString(out, to), held, Low(data[i], from));
  }

  lemma Emit(read: seq<Byte>, from: nat, out: seq<Byte>, to: nat, held: seq<bool>, v: Byte, held': seq<bool>)
    requires Carried(read, from, out, to, held)
    requires v < Pow2(to) && held == Low(v, to) + held'
    ensures Carried(read, from, out + [v], to, held')
  {
    BitStringSnoc(out, v, to);
    Assoc(BitString(out, to), Low(v, to), held');
  }

  lemma ZerosMissing(out: seq<Byte>, held: seq<bool>, to: nat)
    requires |held| < to
    ensures Missing(|BitString(out, to) + held|, to) == if held == [] then 0 else to - |held|
  {
    MissingWhole(out, to, |held|);
  }

  /** With padding, the held bits fill up a last element. */
  lemma FinishPadded(data: seq<Byte>, out: seq<Byte>, held: seq<bool>, last: Byte, from: nat, to: nat)
    requires 1 <= from <= 8 && |held| < to <= 8 && last < Pow2(to)
    requires Carried(data, from, out, to, held)
    requires Low(last, to) == held + Zeros(to - |held|)
    ensures Regroup(data, from, to, true) == Some(if held == [] then out else out + [last])
  {
    var bs := BitString(data, from);
    ZerosMissing(out, held, to);
    if held == [] {
      assert bs + Zeros(0) == BitString(out, to);
      GroupUnique(out, to);
    } else {
      BitStringSnoc(out, last, to);
      Assoc(BitString(out, to), held, Zeros(to - |held|));
      GroupUnique(out + [last], to);
    }
  }

  /** Without, they must be zero and fewer than an input element. */
  lemma FinishExact(data: seq<Byte>, out: seq<Byte>, held: seq<bool>, from: nat, to: nat)
    requires 1 <= from <= 8 && |held| < to <= 8
    requires Carried(data, from, out, to, held)
    ensures Regroup(data, from, to, false) ==
      if |held| >= from || held != Zeros(|held|) then None else Some(out)
  {
    var bs, front := BitString(data, from), BitString(out, to);
    assert Leftover(|bs|, to) == |held| by { LeftoverWhole(out, to, |held|); }
    assert bs[..|front|] == front;
    assert bs[|front|..] == held;
    assert Leftover(|front|, to) == 0 && Group(front, to) == out by { GroupUnique(out, to); }
  }

  /** Wrap-around of the `w`-bit word drops only bits above the ones still held. */
  lemma ShiftIn(w: nat, acc: nat, b: nat, bits: nat, from: nat, acc': nat, bits': nat)
    requires bits + from <= w && b < Pow2(from)
    requires acc' == Mask(Shl(acc, from), w) + b && bits' == bits + from
    ensures Low(acc', bits') == Low(acc, bits) + Low(b, from)
  {
    var x := Shl(acc, from) + b;
    assert acc' == Mask(x, w) by { MaskFill(acc, b, from, w); }
    assert Low(acc', bits') == Low(x, bits') by { LowOfMask(x, w, bits'); }
    LowAppend(acc, b, bits, from);
  }

  lemma ShiftOut(acc: nat, to: nat, bits: nat, bits': nat, v: nat)
    requires to <= 8 && bits == to + bits' && v == Mask(Shr(acc, bits'), to)
    ensures v < 256 && v < Pow2(to)
    ensures Low(acc, bits) == Low(v, to) + Low(acc, bits')
  {
    LowSplit(acc, to, bits');
    LowOfMask(Shr(acc, bits'), to, to);
    Pow2Monotone(to, 8);
  }

  /** The last element holds the remaining bits and then zeros. */
  lemma Padding(w: nat, acc: nat, bits: nat, to: nat, last: nat)
    requires bits < to <= w && to <= 8 && last == Mask(Mask(Shl(acc, to - bits), w), to)
    ensures last < 256 && last < Pow2(to)
    ensures Low(last, to) == Low(acc, bits) + Zeros(to - bits)
    ensures last == 0 <==> Low(acc, bits) == Zeros(bits)
  {
    var x := Shl(acc, to - bits);
    Pow2Monotone(to, 8);
    assert Low(last, to) == Low(x, to) by {
      LowOfMask(Mask(x, w), to, to);
      LowOfMask(x, w, to);
    }
    assert Low(x, to) == Low(acc, bits) + Zeros(to - bits) by {
      LowAppend(acc, 0, bits, to - bits);
      LowOfZero(to - bits);
    }
    LowZeroIff(last, to);
    assert Low(last, to)[..bits] == Low(acc, bits);
    assert Zeros(to)[..bits] == Zeros(bits);
    assert Zeros(bits) + Zeros(to - bits) == Zeros(to);
  }

  /** 8 -> 5 with padding, then 5 -> 8 without, is the identity on all byte strings. */
  lemma BytesSurvive(data: seq<Byte>)
    ensures Regroup(data, 8, 5, true).Some?
    ensures Fits(Regroup(data, 8, 5, true).value, 5)
    ensures Regroup(Regroup(data, 8, 5, true).value, 5, 8, false) == Some(data)
  {
    var bs := BitString(data, 8);
    var p := Missing(|bs|, 5);
    GroupSpells(bs + Zeros(p), 5);
    var cs := bs + Zeros(p);
    LeftoverWhole(data, 8, p);
    assert cs[..|bs|] == bs && cs[|bs|..] == Zeros(p);
    GroupUnique(data, 8);
  }

  /** Conversely, what 5 -> 8 accepts is recovered exactly by 8 -> 5. */
  lemma SymbolsSurvive(c: seq<Byte>, data: seq<Byte>)
    requires Fits(c, 5)
    requires Regroup(c, 5, 8, false) == Some(data)
    ensures Regroup(data, 8, 5, true) == Some(c)
  {
    var cs := BitString(c, 5);
    var rest := Leftover(|cs|, 8);
    var k := |cs| - rest;
    LeftoverMinus(|cs|, 8);
    GroupSpells(cs[..k], 8);
    assert cs[..k] + Zeros(rest) == cs;
    GroupUnique(c, 5);
    MissingUnique(k, rest, 5);
  }

  lemma {:induction false} MissingUnique(n: nat, p: nat, width: nat)
    requires p < width && Leftover(n + p, width) == 0
    ensures Missing(n, width) == p
  {
    if n >= width { MissingUnique(n - width, p, width); }
  }

  /** The five-bit symbols of a byte string. */
  function ToSymbols(data: seq<Byte>): (c: seq<Byte>)
    ensures Fits(c, 5)
  {
    BytesSurvive(data);
    Regroup(data, 8, 5, true).value
  }

  /** The bytes that five-bit symbols spell, if they spell whole ones. */
  function FromSymbols(c: seq<Byte>): Option<seq<Byte>> {
    Regroup(c, 5, 8, false)
  }

  lemma FromToSymbols(data: seq<Byte>)
    ensures FromSymbols(ToSymbols(data)) == Some(data)
  {
    BytesSurvive(data);
  }
}
