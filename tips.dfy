/**
 The rotating hint of the home page: an index into a fixed list of seven
 tips, moved one step forward by every tick of a ten-second timer and wrapped
 back to the first tip after the last.
 */
module TipsComponent {

  const TipTexts: seq<string> := [
    "Déplace toi sur la grande carte pour me chercher, clique sur la petite carte pour te déplacer plus rapidement",
    "Regarde dans quel sens la boussole pointe !",
    "Je suis caché quelque part dans l'émisphère nord",
    "Je suis dans une ville qui possède plus d'un million d'habitants",
    "Je suis la plus grande ville de ma région",
    "La ville où je me situe a déjà subi un séisme",
    "Il y a une statue gigantesque près de moi"
  ]

  /** The index after one tick, for a list of `n` tips: the next one round
      the circle. */
  function NextTip(i: nat, n: nat): (r: nat)
    requires i < n
    ensures r < n
    ensures r == (i + 1) % n
  {
    if i == n - 1 then 0 else i + 1
  }

  /** The index after `k` ticks from `i`. */
  function AfterTicks(i: nat, n: nat, k: nat): (r: nat)
    requires i < n
    ensures r < n
  {
    if k == 0 then i else NextTip(AfterTicks(i, n, k - 1), n)
  }

  lemma MulAtLeast(d: int, n: int)
    requires d >= 1 && n > 0
    ensures d * n >= n
  {
  }

  /** The remainder of `q * n + r` by `n` is `r`, for `0 <= r < n`. */
  lemma ModOf(x: int, n: int, q: int, r: int)
    requires n > 0 && 0 <= r < n && x == q * n + r
    ensures x % n == r
  {
    var q', r' := x / n, x % n;
    var d := q - q';
    assert d * n == r' - r by {
      assert q * n - q' * n == (q - q') * n;
    }
    if d >= 1 {
      MulAtLeast(d, n);
    } else if d <= -1 {
      MulAtLeast(-d, n);
    }
  }

  lemma ModSucc(a: nat, n: nat)
    requires n > 0
    ensures (a % n + 1) % n == (a + 1) % n
  {
    var q, r := a / n, a % n;
    if r + 1 < n {
      ModOf(r + 1, n, 0, r + 1);
      ModOf(a + 1, n, q, r + 1);
    } else {
      ModOf(r + 1, n, 1, 0);
      assert a + 1 == (q + 1) * n + 0;
      ModOf(a + 1, n, q + 1, 0);
    }
  }

  /** After `k` ticks the index has moved `k` places round the circle. */
  lemma {:induction false} AfterTicksIsRotation(i: nat, n: nat, k: nat)
    requires i < n
    ensures AfterTicks(i, n, k) == (i + k) % n
  {
    if k > 0 {
      AfterTicksIsRotation(i, n, k - 1);
      ModSucc(i + k - 1, n);
    }
  }

  /** After `n` ticks the index is back where it started, and not before. */
  lemma FullCycle(i: nat, n: nat)
    requires i < n
    ensures AfterTicks(i, n, n) == i
    ensures forall k | 0 < k < n :: AfterTicks(i, n, k) != i
  {
    AfterTicksIsRotation(i, n, n);
    ModOf(i + n, n, 1, i);
    forall k | 0 < k < n ensures AfterTicks(i, n, k) != i {
      AfterTicksIsRotation(i, n, k);
      if i + k < n {
        ModOf(i + k, n, 0, i + k);
      } else {
        ModOf(i + k, n, 1, i + k - n);
      }
    }
  }

  /** Every tip `j` is shown within the `n` ticks that follow tip `i`. */
  lemma EveryTipShown(i: nat, n: nat, j: nat)
    requires i < n && j < n
    ensures AfterTicks(i, n, if i <= j then j - i else j + n - i) == j
  {
    var k := if i <= j then j - i else j + n - i;
    AfterTicksIsRotation(i, n, k);
    if i <= j {
      ModOf(i + k, n, 0, j);
    } else {
      ModOf(i + k, n, 1, j);
    }
  }

  /** No tip is shown twice within the `n` ticks that follow tip `i`. */
  lemma AtMostOncePerCycle(i: nat, n: nat, k1: nat, k2: nat)
    requires i < n && k1 < k2 < n
    ensures AfterTicks(i, n, k1) != AfterTicks(i, n, k2)
  {
    AfterTicksIsRotation(i, n, k1);
    AfterTicksIsRotation(i, n, k2);
    if i + k1 < n {
      ModOf(i + k1, n, 0, i + k1);
    } else {
      ModOf(i + k1, n, 1, i + k1 - n);
    }
    if i + k2 < n {
      ModOf(i + k2, n, 0, i + k2);
    } else {
      ModOf(i + k2, n, 1, i + k2 - n);
    }
  }

  /** The tips component, holding the index of the tip on screen. */
  class Tips {
    var tipsIndex: nat

    ghost predicate Valid()
      reads this
    {
      tipsIndex < |TipTexts|
    }

    constructor ()
      ensures Valid() && tipsIndex == 0
    {
      tipsIndex := 0;
    }

    /** The interval callback. */
    method Tick()
      requires Valid()
      modifies this
      ensures Valid()
      ensures tipsIndex == NextTip(old(tipsIndex), |TipTexts|)
    {
      if tipsIndex == |TipTexts| - 1 {
        tipsIndex := 0;
      } else {
        tipsIndex := tipsIndex + 1;
      }
    }

    /** The tip on screen. */
    function Shown(): (s: string)
      reads this
      requires Valid()
      ensures s in TipTexts
    {
      TipTexts[tipsIndex]
    }
  }
}
