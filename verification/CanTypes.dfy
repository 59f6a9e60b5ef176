/** Values shared by every component: bytes, CAN payloads, optional results. */
module CanTypes {

  datatype Option<+T> = None | Some(value: T)

  type byte = x: int | 0 <= x < 0x100

  /** The payload of a classic CAN frame: hal::Can::Message holds at most eight bytes. */
  type Message = m: seq<byte> | |m| <= 8

  /** `++x` on a uint8_t. */
  function Next8(x: byte): byte {
    (x + 1) % 0x100
  }

  /** `++n` on a uint32_t. */
  function Tick(n: nat): nat {
    if n == 0xFFFF_FFFF then 0 else n + 1
  }

  function Min(a: int, b: int): int {
    if a <= b then a else b
  }

  /** `xs` is `ys` with some elements left out, order kept. */
  ghost predicate IsSubsequence<T>(xs: seq<T>, ys: seq<T>)
  {
    if xs == [] then true
    else if ys == [] then false
    else if xs[|xs| - 1] == ys[|ys| - 1] then IsSubsequence(xs[..|xs| - 1], ys[..|ys| - 1])
    else IsSubsequence(xs, ys[..|ys| - 1])
  }

  /** Greedy matching from the back loses nothing. */
  lemma {:induction false} SubsequenceDropLast<T>(xs: seq<T>, ys: seq<T>)
    requires xs != [] && IsSubsequence(xs, ys)
    ensures IsSubsequence(xs[..|xs| - 1], ys)
    decreases |ys|, 0
  {
    var init := ys[..|ys| - 1];
    if xs[|xs| - 1] == ys[|ys| - 1] {
      SubsequenceAppend(xs[..|xs| - 1], init, ys[|ys| - 1]);
      assert init + [ys[|ys| - 1]] == ys;
    } else {
      SubsequenceDropLast(xs, init);
      SubsequenceAppend(xs[..|xs| - 1], init, ys[|ys| - 1]);
      assert init + [ys[|ys| - 1]] == ys;
    }
  }

  lemma {:induction false} SubsequenceAppend<T>(xs: seq<T>, ys: seq<T>, y: T)
    requires IsSubsequence(xs, ys)
    ensures IsSubsequence(xs, ys + [y])
    decreases |ys|, 1
  {
    assert (ys + [y])[..|ys|] == ys;
    if xs != [] && xs[|xs| - 1] == y {
      SubsequenceDropLast(xs, ys);
    }
  }

  lemma SubsequenceExtend<T>(xs: seq<T>, ys: seq<T>, y: T)
    requires IsSubsequence(xs, ys)
    ensures IsSubsequence(xs + [y], ys + [y])
  {
    assert (ys + [y])[..|ys|] == ys && (xs + [y])[..|xs|] == xs;
  }

  /** Within a window of 256, numbers kept modulo 256 are told apart. */
  lemma DistinctWithin256(a: nat, b: nat)
    requires a < b < a + 0x100
    ensures a % 0x100 != b % 0x100
  {
  }

  lemma SlicesJoin<T>(s: seq<T>, i: nat, j: nat)
    requires i <= j <= |s|
    ensures s[..i] + s[i..j] == s[..j]
    ensures s[i..j] + s[j..] == s[i..]
  {
  }
}
