/** The background colour of each video card, picked from a four-colour palette by a fixed
    hash of the card's position. */
module Videos {
  import opened Options
  import opened Numbers

  const CardColors: seq<string> := ["bg-[#F5F7FA]", "bg-[#FFF7ED]", "bg-[#F0FDF4]", "bg-[#EEF2FF]"]

  const Multiplier := 9301
  const Increment := 49297
  const Modulus := 233280

  /** `(index * 9301 + 49297) % 233280`, with JavaScript's truncated `%`. */
  function Hash(index: int): (h: int)
    ensures index >= 0 ==> 0 <= h < Modulus
  {
    TruncRem(index * Multiplier + Increment, Modulus)
  }

  /** `hash % 4`, with the truncated `%`. */
  function PaletteIndex(index: int): int {
    TruncRem(Hash(index), |CardColors|)
  }

  /** `CARD_COLORS[hash % 4]`: the lookup misses, giving `undefined`, when the index is
      negative enough to make the hash negative. */
  function CardColor(index: int): (r: Option<string>)
    ensures index >= 0 ==> r == Some(CardColors[(index + 1) % 4])
  {
    var p := PaletteIndex(index);
    if index >= 0 then PaletteIsNext(index); Some(CardColors[p])
    else if 0 <= p < |CardColors| then Some(CardColors[p]) else None
  }

  /** Because 9301 and 49297 are both 1 more than a multiple of 4, and 4 divides 233280, the
      palette slot of card `index` is `(index + 1) % 4`. */
  lemma PaletteIsNext(index: int)
    requires index >= 0
    ensures PaletteIndex(index) == (index + 1) % 4
  {
    var a := index * Multiplier + Increment;
    var h := a % Modulus;
    var q := a / Modulus;
    assert a == q * Modulus + h;
    assert a == (q * 58320) * 4 + h;
    ModShift(h, q * 58320, 4);
    assert a == (index * 2325 + 12324) * 4 + (index + 1);
    ModShift(index + 1, index * 2325 + 12324, 4);
  }

  /** Neighbouring cards never share a colour. */
  lemma NeighboursDiffer(index: int)
    requires index >= 0
    ensures CardColor(index) != CardColor(index + 1)
  {
    var p, q := (index + 1) % 4, (index + 2) % 4;
    assert q == (p + 1) % 4 by { ModStep(index + 1); }
    assert CardColors[0] != CardColors[1] && CardColors[1] != CardColors[2];
    assert CardColors[2] != CardColors[3] && CardColors[3] != CardColors[0];
  }

  lemma ModStep(a: int)
    ensures (a + 1) % 4 == (a % 4 + 1) % 4
  {
    ModShift(a % 4 + 1, a / 4, 4);
  }

  /** The colours repeat every four cards. */
  lemma PeriodFour(index: int)
    requires index >= 0
    ensures CardColor(index + 4) == CardColor(index)
  {
    ModShift(index + 1, 1, 4);
  }

  /** The first cards read the palette from its second entry on. */
  lemma FirstCards()
    ensures CardColor(0) == Some("bg-[#FFF7ED]") && CardColor(3) == Some("bg-[#F5F7FA]")
  {
  }
}
