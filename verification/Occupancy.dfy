/** The two-level occupancy bitset of one side of the book: `l0` has a bit per price slot, `l1` a bit
    per non-zero word of `l0`. Its searches are proved to be the plain linear scans. */
module Occupancy {
  import opened Words

  // ---------------------------------------------------------------------------------------------
  // The specification: linear scans
  // ---------------------------------------------------------------------------------------------

  // The last occupied slot below `i`, or -1.
  function ScanDown(occ: seq<bool>, i: nat): (r: int)
    requires i <= |occ|
    ensures -1 <= r < i
    ensures r >= 0 ==> occ[r]
    ensures forall k :: r < k < i ==> !occ[k]
  {
    if i == 0 then -1 else if occ[i - 1] then i - 1 else ScanDown(occ, i - 1)
  }

  // The first occupied slot at or above `i`, or -1.
  function ScanUp(occ: seq<bool>, i: nat): (r: int)
    requires i <= |occ|
    ensures r == -1 || (i <= r < |occ| && occ[r])
    ensures forall k :: i <= k < (if r == -1 then |occ| else r) ==> !occ[k]
    decreases |occ| - i
  {
    if i == |occ| then -1 else if occ[i] then i else ScanUp(occ, i + 1)
  }

  lemma ScanDownIs(occ: seq<bool>, i: nat, r: int)
    requires -1 <= r < i <= |occ| && (r >= 0 ==> occ[r])
    requires forall k :: r < k < i ==> !occ[k]
    ensures r == ScanDown(occ, i)
  {
  }

  lemma ScanUpIs(occ: seq<bool>, i: nat, r: int)
    requires i <= |occ| && (r == -1 || (i <= r < |occ| && occ[r]))
    requires forall k :: i <= k < (if r == -1 then |occ| else r) ==> !occ[k]
    ensures r == ScanUp(occ, i)
  {
  }

  // ---------------------------------------------------------------------------------------------
  // Words of bits
  // ---------------------------------------------------------------------------------------------

  function WordsFor(n: nat): nat {
    (n + WORD - 1) / WORD
  }

  // The flag word `w`, bit `k` stands for; bits past the end stand for nothing and are clear.
  ghost predicate Flag(occ: seq<bool>, w: nat, k: nat) {
    var i := w * WORD + k;
    i < |occ| && occ[i]
  }

  ghost predicate Matches(ws: seq<word>, occ: seq<bool>) {
    && |ws| == WordsFor(|occ|)
    && (forall w, k {:trigger Bit(ws[w], k)} ::
          0 <= w < |ws| && 0 <= k < WORD ==> (Bit(ws[w], k) <==> Flag(occ, w, k)))
  }

  ghost function NonZero(ws: seq<word>): (r: seq<bool>)
    ensures |r| == |ws|
    ensures forall w :: 0 <= w < |ws| ==> r[w] == (ws[w] != 0)
  {
    seq(|ws|, w requires 0 <= w < |ws| => ws[w] != 0)
  }

  // A slot is flagged exactly when its bit is set.
  lemma SlotBit(ws: seq<word>, occ: seq<bool>, i: nat)
    requires Matches(ws, occ) && i < |occ|
    ensures i / WORD < |ws|
    ensures occ[i] <==> Bit(ws[i / WORD], i % WORD)
  {
    assert Flag(occ, i / WORD, i % WORD) <==> occ[i];
  }

  // Writing bit `i % 64` of word `i / 64` writes flag `i`.
  lemma WriteBit(ws: seq<word>, occ: seq<bool>, i: nat, nw: word, b: bool)
    requires Matches(ws, occ) && i < |occ| && i / WORD < |ws|
    requires forall k :: 0 <= k < WORD ==> (Bit(nw, k) <==> if k == i % WORD then b else Bit(ws[i / WORD], k))
    ensures Matches(ws[i / WORD := nw], occ[i := b])
  {
    var ws', occ' := ws[i / WORD := nw], occ[i := b];
    forall w, k | 0 <= w < |ws'| && 0 <= k < WORD ensures Bit(ws'[w], k) <==> Flag(occ', w, k) {
      if w == i / WORD {
        assert Bit(ws[w], k) <==> Flag(occ, w, k);
      } else {
        assert Bit(ws[w], k) <==> Flag(occ, w, k);
        assert w * WORD + k != i;
      }
    }
  }

  class Bitset {
    const slots: nat
    const l0: array<word>
    const l1: array<word>

    // Which slots are occupied.
    ghost var occ: seq<bool>

    ghost predicate Valid()
      reads this, l0, l1
    {
      && |occ| == slots && l0 != l1
      && Matches(l0[..], occ)
      && Matches(l1[..], NonZero(l0[..]))
    }

    constructor (n: nat)
      ensures Valid() && slots == n && occ == seq(n, _ => false)
      ensures fresh(l0) && fresh(l1)
    {
      slots := n;
      l0 := new word[WordsFor(n)](_ => 0);
      l1 := new word[WordsFor(WordsFor(n))](_ => 0);
      occ := seq(n, _ => false);
      new;
      forall k | 0 <= k < WORD ensures !Bit(0, k) {
        ZeroHasNone(k);
      }
    }

    method Set(i: nat)
      requires Valid() && i < slots
      modifies this, l0, l1
      ensures Valid() && occ == old(occ)[i := true]
    {
      SlotBit(l0[..], occ, i);
      var w := i / WORD;
      ghost var ws, nz := l0[..], NonZero(l0[..]);
      var x := SetBit(l0[w], i % WORD);
      WriteBit(ws, occ, i, x, true);
      l0[w] := x;
      assert l0[..] == ws[w := x];
      occ := occ[i := true];
      assert Bit(x, i % WORD);
      NotZero(x, i % WORD);
      SlotBit(l1[..], nz, w);
      ghost var vs := l1[..];
      var y := SetBit(l1[w / WORD], w % WORD);
      WriteBit(vs, nz, w, y, true);
      l1[w / WORD] := y;
      assert l1[..] == vs[w / WORD := y];
      assert NonZero(l0[..]) == nz[w := true];
    }

    method Clear(i: nat)
      requires Valid() && i < slots
      modifies this, l0, l1
      ensures Valid() && occ == old(occ)[i := false]
    {
      SlotBit(l0[..], occ, i);
      var w := i / WORD;
      ghost var ws, nz := l0[..], NonZero(l0[..]);
      var x := ClearBit(l0[w], i % WORD);
      WriteBit(ws, occ, i, x, false);
      l0[w] := x;
      assert l0[..] == ws[w := x];
      occ := occ[i := false];
      assert NonZero(l0[..]) == nz[w := x != 0];
      if l0[w] == 0 {
        SlotBit(l1[..], nz, w);
        ghost var vs := l1[..];
        var y := ClearBit(l1[w / WORD], w % WORD);
        WriteBit(vs, nz, w, y, false);
        l1[w / WORD] := y;
        assert l1[..] == vs[w / WORD := y];
      } else {
        SomeBitStays(ws[w], x, i % WORD);
        assert nz[w := true] == nz;
      }
    }

    // Highest occupied slot strictly below `idx`, or -1.
    method FindBelow(idx: nat) returns (r: int)
      requires Valid() && idx < slots
      ensures r == ScanDown(occ, idx)
    {
      SlotBit(l0[..], occ, idx);
      var w, b := idx / WORD, idx % WORD;
      var masked := KeepBelow(l0[w], b);
      if masked != 0 {
        var n := HighestBit(masked);
        BelowInWord(l0[..], occ, idx, n);
        return w * WORD + n;
      }
      NoneInWordBelow(l0[..], occ, idx, masked);
      if w == 0 {
        ScanDownIs(occ, idx, -1);
        return -1;
      }
      var p := FindWordBelow(w);
      if p == -1 {
        NoWordBelow(l0[..], occ, idx, 0);
        ScanDownIs(occ, idx, -1);
        return -1;
      }
      var n := HighestBit(l0[p]);
      NoWordBelow(l0[..], occ, idx, p + 1);
      LastInWord(l0[..], occ, p, n);
      ScanDownIs(occ, idx, p * WORD + n);
      return p * WORD + n;
    }

    // Highest non-zero `l0` word strictly below `w`, found through `l1`, or -1.
    method FindWordBelow(w: nat) returns (p: int)
      requires Valid() && 0 < w < l0.Length
      ensures p == ScanDown(NonZero(l0[..]), w)
    {
      ghost var nz := NonZero(l0[..]);
      SlotBit(l1[..], nz, w - 1);
      var cur := (w - 1) / WORD;
      var bit := (w - 1) % WORD;
      var masked := l1[cur];
      if bit != WORD - 1 {
        masked := KeepBelow(l1[cur], bit + 1);
      }
      while true
        invariant 0 <= cur < l1.Length && cur * WORD < w
        invariant forall k :: 0 <= k < WORD ==> (Bit(masked, k) <==> cur * WORD + k < w && Flag(nz, cur, k))
        invariant forall k :: (cur + 1) * WORD <= k < w ==> !nz[k]
        decreases cur
      {
        if masked != 0 {
          var n := HighestBit(masked);
          p := cur * WORD + n;
          forall k | p < k < w ensures !nz[k] {
            if k < (cur + 1) * WORD {
              assert Flag(nz, cur, k - cur * WORD) <==> nz[k];
            }
          }
          ScanDownIs(nz, w, p);
          return;
        }
        forall k | cur * WORD <= k < w ensures !nz[k] {
          if k < (cur + 1) * WORD {
            ZeroHasNone(k - cur * WORD);
            assert Flag(nz, cur, k - cur * WORD) <==> nz[k];
          }
        }
        if cur == 0 {
          ScanDownIs(nz, w, -1);
          return -1;
        }
        cur := cur - 1;
        masked := l1[cur];
      }
    }

    // Lowest occupied slot strictly above `idx`, or -1.
    method FindAbove(idx: nat) returns (r: int)
      requires Valid() && idx < slots
      ensures r == ScanUp(occ, idx + 1)
    {
      SlotBit(l0[..], occ, idx);
      var w, b := idx / WORD, idx % WORD;
      var masked := 0;
      if b != WORD - 1 {
        masked := KeepFrom(l0[w], b + 1);
      }
      if masked != 0 {
        var n := LowestBit(masked);
        AboveInWord(l0[..], occ, idx, n);
        return w * WORD + n;
      }
      NoneInWordAbove(l0[..], occ, idx, masked);
      if w + 1 >= l0.Length {
        ScanUpIs(occ, idx + 1, -1);
        return -1;
      }
      var p := FindWordFrom(w + 1);
      if p == -1 {
        NoWordAbove(l0[..], occ, idx, l0.Length);
        ScanUpIs(occ, idx + 1, -1);
        return -1;
      }
      var n := LowestBit(l0[p]);
      NoWordAbove(l0[..], occ, idx, p);
      FirstInWord(l0[..], occ, p, n);
      ScanUpIs(occ, idx + 1, p * WORD + n);
      return p * WORD + n;
    }

    // Lowest non-zero `l0` word at or above `w`, found through `l1`, or -1.
    method FindWordFrom(w: nat) returns (p: int)
      requires Valid() && w < l0.Length
      ensures p == ScanUp(NonZero(l0[..]), w)
    {
      ghost var nz := NonZero(l0[..]);
      SlotBit(l1[..], nz, w);
      var cur := w / WORD;
      var masked := KeepFrom(l1[cur], w % WORD);
      while cur < l1.Length
        invariant 0 <= cur <= l1.Length
        invariant cur < l1.Length ==>
          forall k :: 0 <= k < WORD ==> (Bit(masked, k) <==> w <= cur * WORD + k && Flag(nz, cur, k))
        invariant forall k :: w <= k < cur * WORD && k < |nz| ==> !nz[k]
      {
        if masked != 0 {
          var n := LowestBit(masked);
          p := cur * WORD + n;
          forall k | w <= k < p ensures !nz[k] {
            if k >= cur * WORD {
              assert Flag(nz, cur, k - cur * WORD) <==> nz[k];
            }
          }
          ScanUpIs(nz, w, p);
          return;
        }
        forall k | w <= k < (cur + 1) * WORD && k < |nz| ensures !nz[k] {
          if k >= cur * WORD {
            ZeroHasNone(k - cur * WORD);
            assert Flag(nz, cur, k - cur * WORD) <==> nz[k];
          }
        }
        cur := cur + 1;
        if cur < l1.Length {
          masked := l1[cur];
        }
      }
      ScanUpIs(nz, w, -1);
      return -1;
    }
  }

  lemma SomeBitStays(w: word, x: word, i: nat)
    requires i < WORD && x != 0
    requires forall k :: 0 <= k < WORD ==> (Bit(x, k) <==> k != i && Bit(w, k))
    ensures w != 0
  {
    MaxWord();
    var k := SomeBit(x, WORD);
    ZeroHasNone(k);
  }

  lemma BelowInWord(ws: seq<word>, occ: seq<bool>, idx: nat, n: nat)
    requires Matches(ws, occ) && idx < |occ| && idx / WORD < |ws|
    requires n < idx % WORD && Bit(ws[idx / WORD], n)
    requires forall k :: n < k < idx % WORD ==> !Bit(ws[idx / WORD], k)
    ensures idx / WORD * WORD + n == ScanDown(occ, idx)
  {
    var w := idx / WORD;
    var r := w * WORD + n;
    assert Flag(occ, w, n);
    forall k | r < k < idx ensures !occ[k] {
      assert !Bit(ws[w], k - w * WORD);
      assert Flag(occ, w, k - w * WORD) <==> occ[k];
    }
    ScanDownIs(occ, idx, r);
  }

  lemma AboveInWord(ws: seq<word>, occ: seq<bool>, idx: nat, n: nat)
    requires Matches(ws, occ) && idx < |occ| && idx / WORD < |ws|
    requires idx % WORD < n < WORD && Bit(ws[idx / WORD], n)
    requires forall k :: idx % WORD < k < n ==> !Bit(ws[idx / WORD], k)
    ensures idx / WORD * WORD + n == ScanUp(occ, idx + 1)
  {
    var w := idx / WORD;
    var r := w * WORD + n;
    assert Flag(occ, w, n);
    forall k | idx < k < r ensures !occ[k] {
      assert !Bit(ws[w], k - w * WORD);
      assert Flag(occ, w, k - w * WORD) <==> occ[k];
    }
    ScanUpIs(occ, idx + 1, r);
  }

  lemma NoneInWordBelow(ws: seq<word>, occ: seq<bool>, idx: nat, masked: word)
    requires Matches(ws, occ) && idx < |occ| && idx / WORD < |ws| && masked == 0
    requires forall k :: 0 <= k < WORD ==> (Bit(masked, k) <==> k < idx % WORD && Bit(ws[idx / WORD], k))
    ensures forall k :: idx / WORD * WORD <= k < idx ==> !occ[k]
  {
    var w := idx / WORD;
    forall k | w * WORD <= k < idx ensures !occ[k] {
      ZeroHasNone(k - w * WORD);
      assert Flag(occ, w, k - w * WORD) <==> occ[k];
    }
  }

  lemma NoneInWordAbove(ws: seq<word>, occ: seq<bool>, idx: nat, masked: word)
    requires Matches(ws, occ) && idx < |occ| && idx / WORD < |ws| && masked == 0
    requires idx % WORD != WORD - 1 ==>
      forall k :: 0 <= k < WORD ==> (Bit(masked, k) <==> k >= idx % WORD + 1 && Bit(ws[idx / WORD], k))
    ensures forall k :: idx < k < (idx / WORD + 1) * WORD && k < |occ| ==> !occ[k]
  {
    var w := idx / WORD;
    forall k | idx < k < (w + 1) * WORD && k < |occ| ensures !occ[k] {
      ZeroHasNone(k - w * WORD);
      assert Flag(occ, w, k - w * WORD) <==> occ[k];
    }
  }

  // Zero words from word `p` up to the word of `idx` leave the slots of those words empty.
  lemma NoWordBelow(ws: seq<word>, occ: seq<bool>, idx: nat, p: nat)
    requires Matches(ws, occ) && idx < |occ| && p <= idx / WORD < |ws|
    requires forall w :: p <= w < idx / WORD ==> ws[w] == 0
    requires forall k :: idx / WORD * WORD <= k < idx ==> !occ[k]
    ensures forall k :: p * WORD <= k < idx ==> !occ[k]
  {
    forall k | p * WORD <= k < idx ensures !occ[k] {
      SlotBit(ws, occ, k);
      ZeroHasNone(k % WORD);
    }
  }

  lemma NoWordAbove(ws: seq<word>, occ: seq<bool>, idx: nat, p: nat)
    requires Matches(ws, occ) && idx < |occ| && idx / WORD < p <= |ws|
    requires forall w :: idx / WORD < w < p ==> ws[w] == 0
    requires forall k :: idx < k < (idx / WORD + 1) * WORD && k < |occ| ==> !occ[k]
    ensures forall k :: idx < k < p * WORD && k < |occ| ==> !occ[k]
  {
    forall k | idx < k < p * WORD && k < |occ| ensures !occ[k] {
      SlotBit(ws, occ, k);
      ZeroHasNone(k % WORD);
    }
  }

  lemma LastInWord(ws: seq<word>, occ: seq<bool>, p: nat, n: nat)
    requires Matches(ws, occ) && p < |ws| && n < WORD && Bit(ws[p], n)
    requires forall k :: n < k < WORD ==> !Bit(ws[p], k)
    ensures p * WORD + n < |occ| && occ[p * WORD + n]
    ensures forall k :: p * WORD + n < k < (p + 1) * WORD && k < |occ| ==> !occ[k]
  {
    assert Flag(occ, p, n);
    forall k | p * WORD + n < k < (p + 1) * WORD && k < |occ| ensures !occ[k] {
      assert !Bit(ws[p], k - p * WORD);
      assert Flag(occ, p, k - p * WORD) <==> occ[k];
    }
  }

  lemma FirstInWord(ws: seq<word>, occ: seq<bool>, p: nat, n: nat)
    requires Matches(ws, occ) && p < |ws| && n < WORD && Bit(ws[p], n)
    requires forall k :: 0 <= k < n ==> !Bit(ws[p], k)
    ensures p * WORD + n < |occ| && occ[p * WORD + n]
    ensures forall k :: p * WORD <= k < p * WORD + n ==> !occ[k]
  {
    assert Flag(occ, p, n);
    forall k | p * WORD <= k < p * WORD + n ensures !occ[k] {
      assert !Bit(ws[p], k - p * WORD);
      assert Flag(occ, p, k - p * WORD) <==> occ[k];
    }
  }

  lemma NotZero(w: word, k: nat)
    requires Bit(w, k)
    ensures w != 0
  {
    ZeroHasNone(k);
  }
}
