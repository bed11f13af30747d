/** The scratch card (src/components/ScratchCard.jsx): counting the scratched-off pixels of the
    canvas, the 40% reveal threshold, the locked guard and the reset when the card changes. The
    drawing itself is not modelled; the canvas's RGBA bytes come in as an array. */
module ScratchCard {

  newtype byte = x: int | 0 <= x < 256

  /** The number of transparent pixels among the first `n` bytes: indices `4k + 3` (the alpha
      channel) holding 0. */
  function TransparentIn(s: seq<byte>, n: nat): nat
    requires n <= |s|
  {
    if n == 0 then 0
    else TransparentIn(s, n - 1) + (if (n - 1) % 4 == 3 && s[n - 1] == 0 then 1 else 0)
  }

  /** Bytes that are not alpha bytes do not change the count. */
  lemma {:induction false} TransparentInSkip(s: seq<byte>, m: nat, n: nat)
    requires m <= n <= |s|
    requires forall k :: m <= k < n ==> k % 4 != 3
    ensures TransparentIn(s, n) == TransparentIn(s, m)
    decreases n - m
  {
    if m < n {
      TransparentInSkip(s, m, n - 1);
    }
  }

  /** Pixel `k` (bytes `4k` to `4k + 3`) adds one to the count exactly when its alpha byte is 0. */
  lemma TransparentInPixel(s: seq<byte>, k: nat)
    requires 4 * k + 4 <= |s|
    ensures TransparentIn(s, 4 * k + 4) == TransparentIn(s, 4 * k) + (if s[4 * k + 3] == 0 then 1 else 0)
  {
    TransparentInSkip(s, 4 * k, 4 * k + 3);
  }

  /** The bytes of an incomplete last pixel are not alpha bytes. */
  lemma TransparentInTail(s: seq<byte>, k: nat, n: nat)
    requires 4 * k <= n <= 4 * k + 3 && n <= |s|
    ensures TransparentIn(s, n) == TransparentIn(s, 4 * k)
  {
    TransparentInSkip(s, 4 * k, n);
  }

  /** Among the first `n` bytes at most `n / 4` are alpha bytes, so the count never exceeds the
      number of pixels, let alone the number of bytes. */
  lemma {:induction false} TransparentInBound(s: seq<byte>, n: nat)
    requires n <= |s|
    ensures TransparentIn(s, n) <= n / 4
  {
    if n > 0 {
      TransparentInBound(s, n - 1);
    }
  }

  /** `checkScratchPercentage`'s loop: every fourth byte from index 3. */
  method CountTransparent(pixels: array<byte>) returns (count: nat)
    ensures count == TransparentIn(pixels[..], pixels.Length)
    ensures count <= pixels.Length / 4
  {
    ghost var s := pixels[..];
    ghost var k: nat := 0;
    count := 0;
    var i := 3;
    while i < pixels.Length
      invariant i == 4 * k + 3 && 4 * k <= pixels.Length
      invariant count == TransparentIn(s, 4 * k)
      decreases pixels.Length - i
    {
      TransparentInPixel(s, k);
      if pixels[i] == 0 {
        count := count + 1;
      }
      i := i + 4;
      k := k + 1;
    }
    TransparentInTail(s, k, pixels.Length);
    TransparentInBound(s, pixels.Length);
  }

  /** `percentage > 40` with `percentage = transparent / (length / 4) * 100` in floating point;
      with no bytes the quotient is NaN and the comparison is false. */
  predicate ScratchedEnough(transparent: nat, length: nat) {
    length > 0 && (transparent as real / (length as real / 4.0)) * 100.0 > 40.0
  }

  lemma DivExceeds(x: real, l: real, c: real)
    requires l > 0.0
    ensures x / l > c <==> x > c * l
  {
    var q := x / l;
    assert q * l == x;
    if q > c {
      assert q * l > c * l;
    } else {
      assert q * l <= c * l;
    }
  }

  /** The threshold in integers: strictly more than 40% of the pixels, that is ten times the
      transparent count above the byte count. */
  lemma ScratchedEnoughExactly(transparent: nat, length: nat)
    ensures ScratchedEnough(transparent, length) <==> length > 0 && 10 * transparent > length
  {
    if length > 0 {
      var t, l := transparent as real, length as real;
      assert t / (l / 4.0) * 100.0 == (400.0 * t) / l;
      DivExceeds(400.0 * t, l, 40.0);
    }
  }

  class Card {
    var storeName: string
    var cost: int
    /** The `isUnlocked` prop: scratching is ignored until the card is paid for. */
    var isUnlocked: bool
    /** `isScratched`: no code path ever sets it to true. */
    var isScratched: bool
    var isRevealed: bool
    /** Whether the canvas context is available (the canvas is mounted). */
    var hasContext: bool

    constructor (storeName: string, cost: int, isUnlocked: bool, hasContext: bool)
      ensures this.storeName == storeName && this.cost == cost && this.isUnlocked == isUnlocked
      ensures this.hasContext == hasContext && !isScratched && !isRevealed
    {
      this.storeName, this.cost, this.isUnlocked, this.hasContext := storeName, cost, isUnlocked, hasContext;
      isScratched, isRevealed := false, false;
    }

    /** New props: a different store name or cost resets the card. */
    method ChangeProps(newStoreName: string, newCost: int, newUnlocked: bool)
      modifies this
      ensures storeName == newStoreName && cost == newCost && isUnlocked == newUnlocked
      ensures hasContext == old(hasContext)
      ensures (newStoreName != old(storeName) || newCost != old(cost)) ==> !isScratched && !isRevealed
      ensures (newStoreName == old(storeName) && newCost == old(cost)) ==>
                isScratched == old(isScratched) && isRevealed == old(isRevealed)
    {
      if newStoreName != storeName || newCost != cost {
        isScratched, isRevealed := false, false;
      }
      storeName, cost, isUnlocked := newStoreName, newCost, newUnlocked;
    }

    /** A mouse or touch move over the canvas, followed by the percentage check on the canvas
        bytes `pixels` it leaves behind. `revealed` says whether `onReveal` was called. */
    method Scratch(pixels: array<byte>) returns (revealed: bool)
      modifies this`isRevealed
      ensures !isUnlocked || isScratched || !hasContext || old(isRevealed) ==>
                !revealed && isRevealed == old(isRevealed)
      ensures revealed <==> isUnlocked && !isScratched && hasContext && !old(isRevealed)
                            && 10 * TransparentIn(pixels[..], pixels.Length) > pixels.Length
      ensures isRevealed == (old(isRevealed) || revealed)
    {
      revealed := false;
      if !isUnlocked {
        return;
      }
      if !isScratched && hasContext {
        if isRevealed {
          return;
        }
        var transparent := CountTransparent(pixels);
        ScratchedEnoughExactly(transparent, pixels.Length);
        if ScratchedEnough(transparent, pixels.Length) {
          isRevealed := true;
          revealed := true;
        }
      }
    }
  }
}
