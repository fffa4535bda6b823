/**
 * The colour history as a value: a list of at most eight colours, newest
 * first, no two with the same hex. `Added` is what `addToColorHistory` does to
 * the list; the controller's method is proved to perform exactly it.
 */
module ColorHistory {
  import opened Colors

  /** `MAX_HISTORY_SIZE`. */
  const MaxHistorySize: nat := 8

  /** `removeIf(c -> colorToHex(c).equals(hex))`: the entries with another hex, in order. */
  function WithoutHex(h: seq<Color>, hex: string): (r: seq<Color>)
    ensures |r| <= |h|
    ensures forall i | 0 <= i < |r| :: ColorToHex(r[i]) != hex
    ensures forall x | x in r :: x in h
    ensures forall x | x in h && ColorToHex(x) != hex :: x in r
  {
    if h == [] then []
    else (if ColorToHex(h[0]) == hex then [] else [h[0]]) + WithoutHex(h[1..], hex)
  }

  predicate DistinctHexes(h: seq<Color>)
  {
    forall i, j | 0 <= i < j < |h| :: ColorToHex(h[i]) != ColorToHex(h[j])
  }

  /** The invariant the history keeps. */
  predicate ValidHistory(h: seq<Color>)
  {
    |h| <= MaxHistorySize && DistinctHexes(h)
  }

  /** `addToColorHistory(c)`: drop entries with c's hex, put c first, drop the last if over capacity. */
  function Added(h: seq<Color>, c: Color): seq<Color>
  {
    var kept := [c] + WithoutHex(h, ColorToHex(c));
    if |kept| > MaxHistorySize then kept[..|kept| - 1] else kept
  }

  /** At most eight entries after an add, given at most eight before. */
  lemma AddedBounded(h: seq<Color>, c: Color)
    requires |h| <= MaxHistorySize
    ensures 1 <= |Added(h, c)| <= MaxHistorySize
  {
  }

  /** The new colour is entry 0 and no other entry has its hex. */
  lemma AddedHead(h: seq<Color>, c: Color)
    ensures |Added(h, c)| >= 1 && Added(h, c)[0] == c
    ensures forall i | 1 <= i < |Added(h, c)| :: ColorToHex(Added(h, c)[i]) != ColorToHex(c)
  {
    AddedEntries(h, c);
  }

  /** After an add, entry 0 is the colour and entry i the (i - 1)-th of the entries kept. */
  lemma AddedEntries(h: seq<Color>, c: Color)
    ensures |Added(h, c)| >= 1 && Added(h, c)[0] == c
    ensures forall i | 1 <= i < |Added(h, c)| :: Added(h, c)[i] == WithoutHex(h, ColorToHex(c))[i - 1]
  {
    var rest := WithoutHex(h, ColorToHex(c));
    var kept := [c] + rest;
    assert forall i | 1 <= i < |kept| :: kept[i] == rest[i - 1];
  }

  /** Dropping the first entry keeps the hexes distinct. */
  lemma TailDistinct(h: seq<Color>)
    requires h != [] && DistinctHexes(h)
    ensures DistinctHexes(h[1..])
  {
    var tail := h[1..];
    forall i, j | 0 <= i < j < |tail| ensures ColorToHex(tail[i]) != ColorToHex(tail[j]) {
      assert tail[i] == h[i + 1] && tail[j] == h[j + 1];
    }
  }

  lemma {:induction false} WithoutHexDistinct(h: seq<Color>, hex: string)
    requires DistinctHexes(h)
    ensures DistinctHexes(WithoutHex(h, hex))
  {
    if h != [] {
      TailDistinct(h);
      WithoutHexDistinct(h[1..], hex);
      WithoutHexDistinctStep(h, hex);
    }
  }

  /** The inductive step: the first entry's hex is in none of the later entries, so neither in what is kept of them. */
  lemma WithoutHexDistinctStep(h: seq<Color>, hex: string)
    requires h != [] && DistinctHexes(h)
    requires DistinctHexes(WithoutHex(h[1..], hex))
    ensures DistinctHexes(WithoutHex(h, hex))
  {
    var tail := h[1..];
    var rest := WithoutHex(tail, hex);
    if ColorToHex(h[0]) != hex {
      HeadHexNotInTail(h);
      WithoutHexAvoids(tail, hex, ColorToHex(h[0]));
      DistinctCons(h[0], rest);
    }
  }

  /** The first entry's hex is in no later entry. */
  lemma HeadHexNotInTail(h: seq<Color>)
    requires h != [] && DistinctHexes(h)
    ensures forall i | 0 <= i < |h[1..]| :: ColorToHex(h[1..][i]) != ColorToHex(h[0])
  {
    forall i | 0 <= i < |h[1..]| ensures ColorToHex(h[1..][i]) != ColorToHex(h[0]) {
      assert h[1..][i] == h[i + 1];
    }
  }

  /** A hex no entry has is had by no kept entry. */
  lemma {:induction false} WithoutHexAvoids(h: seq<Color>, hex: string, other: string)
    requires forall i | 0 <= i < |h| :: ColorToHex(h[i]) != other
    ensures forall i | 0 <= i < |WithoutHex(h, hex)| :: ColorToHex(WithoutHex(h, hex)[i]) != other
  {
    if h != [] {
      HeadHexNotInTailOf(h, other);
      WithoutHexAvoids(h[1..], hex, other);
      var front := if ColorToHex(h[0]) == hex then [] else [h[0]];
      AvoidsConcat(front, WithoutHex(h[1..], hex), other);
    }
  }

  lemma HeadHexNotInTailOf(h: seq<Color>, other: string)
    requires h != [] && forall i | 0 <= i < |h| :: ColorToHex(h[i]) != other
    ensures forall i | 0 <= i < |h[1..]| :: ColorToHex(h[1..][i]) != other
  {
    forall i | 0 <= i < |h[1..]| ensures ColorToHex(h[1..][i]) != other {
      assert h[1..][i] == h[i + 1];
    }
  }

  lemma AvoidsConcat(a: seq<Color>, b: seq<Color>, other: string)
    requires forall i | 0 <= i < |a| :: ColorToHex(a[i]) != other
    requires forall i | 0 <= i < |b| :: ColorToHex(b[i]) != other
    ensures forall i | 0 <= i < |a + b| :: ColorToHex((a + b)[i]) != other
  {
    forall i | 0 <= i < |a + b| ensures ColorToHex((a + b)[i]) != other {
      if i >= |a| {
        assert (a + b)[i] == b[i - |a|];
      }
    }
  }

  /** A colour whose hex no entry has, in front of entries with distinct hexes, keeps them distinct. */
  lemma DistinctCons(x: Color, rest: seq<Color>)
    requires DistinctHexes(rest)
    requires forall i | 0 <= i < |rest| :: ColorToHex(rest[i]) != ColorToHex(x)
    ensures DistinctHexes([x] + rest)
  {
    var kept := [x] + rest;
    forall i, j | 0 <= i < j < |kept| ensures ColorToHex(kept[i]) != ColorToHex(kept[j]) {
      assert kept[j] == rest[j - 1];
      if i > 0 {
        assert kept[i] == rest[i - 1];
      }
    }
  }

  /** Distinct hexes before an add means distinct hexes after it. */
  lemma AddedDistinct(h: seq<Color>, c: Color)
    requires DistinctHexes(h)
    ensures DistinctHexes(Added(h, c))
  {
    var rest := WithoutHex(h, ColorToHex(c));
    WithoutHexDistinct(h, ColorToHex(c));
    DistinctCons(c, rest);
    var kept := [c] + rest;
    if |kept| > MaxHistorySize {
      DistinctPrefix(kept, |kept| - 1);
    }
  }

  lemma DistinctPrefix(h: seq<Color>, n: nat)
    requires DistinctHexes(h) && n <= |h|
    ensures DistinctHexes(h[..n])
  {
    forall i, j | 0 <= i < j < n ensures ColorToHex(h[..n][i]) != ColorToHex(h[..n][j]) {
      assert h[..n][i] == h[i] && h[..n][j] == h[j];
    }
  }

  /** The history invariant survives an add. */
  lemma AddedValid(h: seq<Color>, c: Color)
    requires ValidHistory(h)
    ensures ValidHistory(Added(h, c))
  {
    AddedBounded(h, c);
    AddedDistinct(h, c);
  }

  /** Adding the newest colour again changes nothing. */
  lemma AddedTwice(h: seq<Color>, c: Color)
    requires ValidHistory(h)
    ensures Added(Added(h, c), c) == Added(h, c)
  {
    AddedValid(h, c);
    AddedHead(h, c);
    AddedWhenPresent(Added(h, c), c, 0);
    assert Added(h, c)[..0] == [];
  }

  lemma {:induction false} WithoutAbsentHex(h: seq<Color>, hex: string)
    requires forall i | 0 <= i < |h| :: ColorToHex(h[i]) != hex
    ensures WithoutHex(h, hex) == h
  {
    if h != [] {
      WithoutAbsentHex(h[1..], hex);
      assert [h[0]] + h[1..] == h;
    }
  }

  lemma {:induction false} WithoutPresentHex(h: seq<Color>, hex: string, k: nat)
    requires DistinctHexes(h) && k < |h| && ColorToHex(h[k]) == hex
    ensures WithoutHex(h, hex) == h[..k] + h[k + 1..]
  {
    OnlyOneWithHex(h, hex, k);
    if k == 0 {
      WithoutAbsentHex(h[1..], hex);
      assert h[..0] + h[1..] == h[1..];
    } else {
      TailDistinct(h);
      assert h[1..][k - 1] == h[k];
      WithoutPresentHex(h[1..], hex, k - 1);
      WithoutPresentStep(h, hex, k);
    }
  }

  /** In a list with distinct hexes, entry k is the only one with its hex. */
  lemma OnlyOneWithHex(h: seq<Color>, hex: string, k: nat)
    requires DistinctHexes(h) && k < |h| && ColorToHex(h[k]) == hex
    ensures forall i | 0 <= i < |h| && i != k :: ColorToHex(h[i]) != hex
    ensures forall i | 0 <= i < |h[1..]| && i != k - 1 :: ColorToHex(h[1..][i]) != hex
  {
    forall i | 0 <= i < |h[1..]| && i != k - 1 ensures ColorToHex(h[1..][i]) != hex {
      assert h[1..][i] == h[i + 1];
    }
  }

  /** The inductive step: a first entry with another hex stays in front. */
  lemma WithoutPresentStep(h: seq<Color>, hex: string, k: nat)
    requires 0 < k < |h| && ColorToHex(h[0]) != hex
    requires WithoutHex(h[1..], hex) == h[1..][..k - 1] + h[1..][k..]
    ensures WithoutHex(h, hex) == h[..k] + h[k + 1..]
  {
    var tail := h[1..];
    WithoutKeptHead(h, hex);
    AroundEntry(h, k);
    EntryAssoc([h[0]], tail[..k - 1], tail[k..]);
  }

  /** A first entry with another hex stays in front. */
  lemma WithoutKeptHead(h: seq<Color>, hex: string)
    requires h != [] && ColorToHex(h[0]) != hex
    ensures WithoutHex(h, hex) == [h[0]] + WithoutHex(h[1..], hex)
  {
  }

  /** The entries before and after index k, seen from the tail. */
  lemma AroundEntry(h: seq<Color>, k: nat)
    requires 0 < k < |h|
    ensures h[..k] == [h[0]] + h[1..][..k - 1]
    ensures h[k + 1..] == h[1..][k..]
  {
  }

  lemma EntryAssoc(a: seq<Color>, b: seq<Color>, c: seq<Color>)
    ensures a + (b + c) == (a + b) + c
  {
  }

  /**
   * Re-adding a colour already in a valid history moves it to the front: the
   * other entries keep their order and nothing is evicted.
   */
  lemma AddedWhenPresent(h: seq<Color>, c: Color, k: nat)
    requires ValidHistory(h) && k < |h| && ColorToHex(h[k]) == ColorToHex(c)
    ensures Added(h, c) == [c] + h[..k] + h[k + 1..]
  {
    WithoutPresentHex(h, ColorToHex(c), k);
  }

  /**
   * Adding a new colour prepends it; only when the list already held eight
   * (or more) entries is the last, oldest one evicted.
   */
  lemma AddedWhenAbsent(h: seq<Color>, c: Color)
    requires forall i | 0 <= i < |h| :: ColorToHex(h[i]) != ColorToHex(c)
    ensures |h| < MaxHistorySize ==> Added(h, c) == [c] + h
    ensures |h| >= MaxHistorySize ==> Added(h, c) == [c] + h[..|h| - 1]
  {
    WithoutAbsentHex(h, ColorToHex(c));
  }
}
