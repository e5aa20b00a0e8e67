/**
 * Colour bucketing of ids (utils/getColorForId.ts): an id picks one of six
 * background classes by JavaScript's remainder, `colors[id % colors.length]`.
 */
module Colors {
  import opened Wrappers
  import opened JsValues

  /** The palette, in the order the source lists it. */
  const Palette: seq<string> := [
    "bg-amber-400",
    "bg-rose-400",
    "bg-blue-400",
    "bg-green-400",
    "bg-orange-400",
    "bg-teal-400"
  ]

  /**
   * `getColorForId(id)`. Indexing an array with a negative number yields
   * `undefined`, modelled as None; `-0` indexes like `0`.
   */
  function GetColorForId(id: int): (color: Option<string>)
    ensures color.Some? ==> color.value in Palette
  {
    var i := Rem(id, |Palette|);
    if i >= 0 then Some(Palette[i]) else None
  }

  /** No colour appears twice in the palette. */
  lemma PaletteDistinct(i: int, j: int)
    requires 0 <= i < |Palette| && 0 <= j < |Palette|
    ensures Palette[i] == Palette[j] <==> i == j
  {
  }

  /**
   * The colour is defined exactly for the non-negative ids and the negative multiples of
   * six (whose remainder is `-0`).
   */
  lemma ColorInPalette(id: int)
    ensures GetColorForId(id).Some? <==> id >= 0 || id % 6 == 0
    ensures id >= 0 ==> GetColorForId(id) == Some(Palette[id % 6])
  {
    if id < 0 {
      if id % 6 == 0 {
        assert -id == 6 * (-(id / 6));
      }
      if (-id) % 6 == 0 {
        assert id == 6 * (-((-id) / 6));
      }
    }
  }

  /** Ids six apart get the same colour (for non-negative ids). */
  lemma {:induction false} ColorPeriodic(id: int)
    requires id >= 0
    ensures GetColorForId(id + 6) == GetColorForId(id)
  {
    ColorInPalette(id);
    ColorInPalette(id + 6);
  }

  /** Ids 0 to 5 take the palette's colours in the listed order. */
  lemma ColorsInOrder()
    ensures forall i :: 0 <= i < 6 ==> GetColorForId(i) == Some(Palette[i])
    ensures GetColorForId(0) == Some("bg-amber-400")
    ensures GetColorForId(5) == Some("bg-teal-400")
  {
    forall i | 0 <= i < 6 ensures GetColorForId(i) == Some(Palette[i]) {
      ColorInPalette(i);
    }
  }

  /** Two non-negative ids share a colour iff they are congruent modulo six. */
  lemma SameColorIff(a: int, b: int)
    requires a >= 0 && b >= 0
    ensures GetColorForId(a) == GetColorForId(b) <==> a % 6 == b % 6
  {
    ColorInPalette(a);
    ColorInPalette(b);
    PaletteDistinct(a % 6, b % 6);
  }

  /**
   * Negative ids: JavaScript's remainder is negative unless the id is a
   * multiple of six, so the lookup is `undefined`; the multiples of six
   * give `-0` and so the first colour.
   */
  lemma NegativeIds(id: int)
    requires id < 0
    ensures id % 6 != 0 ==> GetColorForId(id) == None
    ensures id % 6 == 0 ==> GetColorForId(id) == Some("bg-amber-400")
  {
    ColorInPalette(id);
  }
}
