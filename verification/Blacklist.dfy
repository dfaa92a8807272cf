/**
 * Blacklisted satellites: the conversion between lists of satellite ids and
 * the four 64-bit masks the modem takes.  A mask is modelled by its bits, the
 * lowest first.
 */
module Blacklist {

  datatype Constellation = Gps | Sbas | Glonass | Qzss | Beidou | Galileo

  datatype Source = Source(constellation: Constellation, svId: nat)

  type Mask = s: seq<bool> | |s| == 64 witness seq(64, _ => false)

  datatype Config = Config(glo: Mask, bds: Mask, qzss: Mask, gal: Mask)

  function NoBits(): Mask {
    seq(64, _ => false)
  }

  /** GNSS_SV_CONFIG_ALL_BITS_ENABLED_MASK */
  function AllBits(): Mask {
    seq(64, _ => true)
  }

  function Cleared(): Config {
    Config(NoBits(), NoBits(), NoBits(), NoBits())
  }

  predicate HasMask(c: Constellation) {
    c == Glonass || c == Beidou || c == Qzss || c == Galileo
  }

  function InitialSvId(c: Constellation): nat {
    match c
    case Glonass => 65
    case Qzss => 193
    case Beidou => 201
    case Galileo => 301
    case _ => 0
  }

  function MaskOf(config: Config, c: Constellation): Mask {
    match c
    case Glonass => config.glo
    case Beidou => config.bds
    case Qzss => config.qzss
    case Galileo => config.gal
    case _ => NoBits()
  }

  function WithMask(config: Config, c: Constellation, mask: Mask): Config {
    match c
    case Glonass => config.(glo := mask)
    case Beidou => config.(bds := mask)
    case Qzss => config.(qzss := mask)
    case Galileo => config.(gal := mask)
    case _ => config
  }

  /** An id of the 64 that the mask of its constellation has bits for. */
  predicate InRange(s: Source) {
    HasMask(s.constellation) && InitialSvId(s.constellation) <= s.svId < InitialSvId(s.constellation) + 64
  }

  /**
   * 1 << k on a signed 32-bit int, widened to 64 bits: bit 31 is the sign and
   * fills the upper half.  Beyond it the shift is undefined.
   */
  function ShiftedOne(k: nat): Mask
    requires k <= 31
  {
    seq(64, i => i == k || (k == 31 && i >= 31))
  }

  function Or(a: Mask, b: Mask): Mask {
    seq(64, i requires 0 <= i < 64 => a[i] || b[i])
  }

  /** The shift for the source is defined. */
  predicate Shiftable(s: Source) {
    InRange(s) ==> s.svId - InitialSvId(s.constellation) <= 31
  }

  // ----- List to masks -----

  function AddSource(config: Config, s: Source): Config
    requires Shiftable(s)
  {
    if !HasMask(s.constellation) then config
    else if s.svId == 0 then WithMask(config, s.constellation, AllBits())
    else if !InRange(s) then config
    else
      var mask := MaskOf(config, s.constellation);
      WithMask(config, s.constellation, Or(mask, ShiftedOne(s.svId - InitialSvId(s.constellation))))
  }

  function AddSources(config: Config, sources: seq<Source>): Config
    requires forall s :: s in sources ==> Shiftable(s)
  {
    if sources == [] then config
    else AddSource(AddSources(config, sources[..|sources| - 1]), sources[|sources| - 1])
  }

  /** convertToGnssSvIdConfig; an empty list clears the masks. */
  method ConvertToGnssSvIdConfig(sources: seq<Source>, config: Config) returns (result: Config, valid: bool)
    requires forall s :: s in sources ==> Shiftable(s)
    ensures result == if sources == [] then Cleared() else AddSources(config, sources)
    ensures valid <==> sources == [] || result != Cleared()
  {
    if |sources| == 0 {
      return Cleared(), true;
    }
    result := config;
    var i := 0;
    while i < |sources|
      invariant 0 <= i <= |sources| && forall s :: s in sources[..i] ==> s in sources
      invariant result == AddSources(config, sources[..i])
    {
      assert sources[..i + 1][..i] == sources[..i];
      var s := sources[i];
      assert s in sources && Shiftable(s);
      if HasMask(s.constellation) {
        var first := InitialSvId(s.constellation);
        if s.svId == 0 {
          result := WithMask(result, s.constellation, AllBits());
        } else if first <= s.svId < first + 64 {
          result := WithMask(result, s.constellation,
                             Or(MaskOf(result, s.constellation), ShiftedOne(s.svId - first)));
        }
      }
      i := i + 1;
    }
    assert sources[..i] == sources;
    valid := result.glo != NoBits() || result.bds != NoBits() || result.gal != NoBits() || result.qzss != NoBits();
  }

  // ----- Masks to list -----

  /** The sources for the bits of a mask below bit n, in ascending order. */
  function BitsBelow(mask: Mask, n: nat, c: Constellation): seq<Source>
    requires n <= 64
  {
    if n == 0 then []
    else BitsBelow(mask, n - 1, c) + (if mask[n - 1] then [Source(c, n - 1 + InitialSvId(c))] else [])
  }

  function MaskToList(mask: Mask, c: Constellation): seq<Source> {
    if mask == AllBits() then [Source(c, 0)] else BitsBelow(mask, |mask|, c)
  }

  function ShiftedRight(mask: Mask, b: nat): Mask {
    seq(64, i requires 0 <= i < 64 => i + b < 64 && mask[i + b])
  }

  lemma ShiftOnce(mask: Mask, b: nat)
    requires b <= 64
    ensures ShiftedRight(mask, b)[1..] + [false] == ShiftedRight(mask, b + 1)
    ensures true in ShiftedRight(mask, b) ==> b < 64
    ensures b < 64 ==> ShiftedRight(mask, b)[0] == mask[b]
  {
  }

  /** Once everything is shifted out, the rest of the mask has no bits. */
  lemma {:induction false} ShiftedOut(mask: Mask, b: nat, n: nat, c: Constellation)
    requires b <= n <= 64 && true !in ShiftedRight(mask, b)
    ensures BitsBelow(mask, n, c) == BitsBelow(mask, b, c)
    decreases n - b
  {
    if b == n {
    } else {
      ShiftedOut(mask, b, n - 1, c);
      assert !ShiftedRight(mask, b)[n - 1 - b];
    }
  }

  /** convertGnssSvIdMaskToList: the loop looks at the low bit and shifts. */
  method ConvertMaskToList(svIdMask: Mask, c: Constellation) returns (sources: seq<Source>)
    ensures sources == MaskToList(svIdMask, c)
  {
    if svIdMask == AllBits() {
      return [Source(c, 0)];
    }
    sources := [];
    var mask, bitNumber := svIdMask, 0;
    assert ShiftedRight(svIdMask, 0) == svIdMask;
    while true in mask
      invariant 0 <= bitNumber <= 64 && mask == ShiftedRight(svIdMask, bitNumber)
      invariant sources == BitsBelow(svIdMask, bitNumber, c)
      decreases 64 - bitNumber
    {
      ShiftOnce(svIdMask, bitNumber);
      if mask[0] {
        sources := sources + [Source(c, bitNumber + InitialSvId(c))];
      }
      bitNumber := bitNumber + 1;
      mask := mask[1..] + [false];
    }
    ShiftedOut(svIdMask, bitNumber, |svIdMask|, c);
  }

  /** convertFromGnssSvIdConfig. */
  function ConfigToList(config: Config): seq<Source> {
    MaskToList(config.bds, Beidou) + MaskToList(config.gal, Galileo)
    + MaskToList(config.glo, Glonass) + MaskToList(config.qzss, Qzss)
  }

  method ConvertFromGnssSvIdConfig(config: Config) returns (sources: seq<Source>)
    ensures sources == ConfigToList(config)
  {
    var bds := ConvertMaskToList(config.bds, Beidou);
    var gal := ConvertMaskToList(config.gal, Galileo);
    var glo := ConvertMaskToList(config.glo, Glonass);
    var qzss := ConvertMaskToList(config.qzss, Qzss);
    sources := bds + gal + glo + qzss;
  }

  // ----- What a list says -----

  /** The source blacklists the satellite of bit i: it names it, or all, or (for bits 31 and up) that of bit 31. */
  predicate NamedBy(s: Source, c: Constellation, i: nat) {
    HasMask(c) && s.constellation == c
    && (s.svId == 0 || (InRange(s) && ShiftedOneHas(s.svId - InitialSvId(c), i)))
  }

  predicate ShiftedOneHas(k: nat, i: nat) {
    i == k || (k == 31 && i >= 31)
  }

  predicate Names(sources: seq<Source>, c: Constellation, i: nat) {
    exists s :: s in sources && NamedBy(s, c, i)
  }

  lemma AddSourceBit(config: Config, s: Source, c: Constellation, i: nat)
    requires Shiftable(s) && HasMask(c) && i < 64
    ensures MaskOf(AddSource(config, s), c)[i] <==> MaskOf(config, c)[i] || NamedBy(s, c, i)
  {
    if s.constellation == c && InRange(s) && s.svId != 0 {
      assert ShiftedOne(s.svId - InitialSvId(c))[i] <==> ShiftedOneHas(s.svId - InitialSvId(c), i);
    }
  }

  /** A bit is set in the masks exactly if the list names it. */
  lemma {:induction false} MasksOfList(sources: seq<Source>, c: Constellation, i: nat)
    requires (forall s :: s in sources ==> Shiftable(s)) && HasMask(c) && i < 64
    ensures MaskOf(AddSources(Cleared(), sources), c)[i] <==> Names(sources, c, i)
  {
    if sources == [] {
    } else {
      var init, last := sources[..|sources| - 1], sources[|sources| - 1];
      MasksOfList(init, c, i);
      assert last in sources;
      AddSourceBit(AddSources(Cleared(), init), last, c, i);
      assert sources == init + [last];
      assert Names(sources, c, i) <==> Names(init, c, i) || NamedBy(last, c, i);
    }
  }

  /** The first satellites of the constellations have bit 0. */
  lemma FirstIds()
    ensures InRange(Source(Glonass, 65)) && NamedBy(Source(Glonass, 65), Glonass, 0)
    ensures InRange(Source(Qzss, 193)) && NamedBy(Source(Qzss, 193), Qzss, 0)
    ensures InRange(Source(Beidou, 201)) && NamedBy(Source(Beidou, 201), Beidou, 0)
    ensures InRange(Source(Galileo, 301)) && NamedBy(Source(Galileo, 301), Galileo, 0)
  {
  }

  // ----- What the list of a mask looks like -----

  /** The list holds exactly the bits of the mask, */
  lemma {:induction false} InBitsBelow(mask: Mask, n: nat, c: Constellation, s: Source)
    requires n <= 64
    ensures s in BitsBelow(mask, n, c) <==>
            s.constellation == c && InitialSvId(c) <= s.svId < n + InitialSvId(c) && mask[s.svId - InitialSvId(c)]
  {
    if n == 0 {
    } else {
      InBitsBelow(mask, n - 1, c, s);
    }
  }

  /** in ascending order. */
  lemma {:induction false} BitsAscend(mask: Mask, n: nat, c: Constellation, j: nat, k: nat)
    requires n <= 64 && j < k < |BitsBelow(mask, n, c)|
    ensures BitsBelow(mask, n, c)[j].svId < BitsBelow(mask, n, c)[k].svId
  {
    var init := BitsBelow(mask, n - 1, c);
    if k < |init| {
      BitsAscend(mask, n - 1, c, j, k);
    } else {
      assert init[j] in init;
      InBitsBelow(mask, n - 1, c, init[j]);
    }
  }

  lemma InMaskToList(mask: Mask, c: Constellation, s: Source)
    ensures s in MaskToList(mask, c) <==>
            s.constellation == c
            && if mask == AllBits() then s.svId == 0
               else InitialSvId(c) <= s.svId < 64 + InitialSvId(c) && mask[s.svId - InitialSvId(c)]
  {
    InBitsBelow(mask, |mask|, c, s);
  }

  // ----- List to masks to list -----

  predicate NamesAll(sources: seq<Source>, c: Constellation) {
    Source(c, 0) in sources
  }

  /** Valid ids have their bit below bit 31. */
  predicate Plain(sources: seq<Source>) {
    forall s :: s in sources && InRange(s) ==> s.svId - InitialSvId(s.constellation) <= 30
  }

  lemma NamesPlain(sources: seq<Source>, c: Constellation, i: nat)
    requires Plain(sources) && HasMask(c) && i < 64
    ensures Names(sources, c, i) <==> NamesAll(sources, c) || Source(c, i + InitialSvId(c)) in sources
  {
  }

  /** The list of a mask is in ascending order and names nothing twice. */
  lemma MaskToListAscends(mask: Mask, c: Constellation, j: nat, k: nat)
    requires j < k < |MaskToList(mask, c)|
    ensures MaskToList(mask, c)[j].svId < MaskToList(mask, c)[k].svId
  {
    BitsAscend(mask, |mask|, c, j, k);
  }

  /**
   * A list of plain ids comes back, constellation by constellation, with the
   * same ids: only id 0 if the list has it, and otherwise the valid ones.
   */
  lemma ListRoundTrip(sources: seq<Source>, c: Constellation, id: nat)
    requires Plain(sources) && HasMask(c)
    ensures forall s :: s in sources ==> Shiftable(s)
    ensures Source(c, id) in MaskToList(MaskOf(AddSources(Cleared(), sources), c), c)
            <==> if NamesAll(sources, c) then id == 0
                 else Source(c, id) in sources && InRange(Source(c, id))
  {
    var mask := MaskOf(AddSources(Cleared(), sources), c);
    InMaskToList(mask, c, Source(c, id));
    if NamesAll(sources, c) {
      AllNamed(sources, c);
    } else {
      NotAll(sources, c);
      if InRange(Source(c, id)) {
        PlainBit(sources, c, id - InitialSvId(c));
      }
    }
  }

  lemma AllNamed(sources: seq<Source>, c: Constellation)
    requires Plain(sources) && HasMask(c) && NamesAll(sources, c)
    ensures MaskOf(AddSources(Cleared(), sources), c) == AllBits()
  {
    forall i | 0 <= i < 64
      ensures MaskOf(AddSources(Cleared(), sources), c)[i]
    {
      PlainBit(sources, c, i);
    }
  }

  lemma PlainBit(sources: seq<Source>, c: Constellation, i: nat)
    requires Plain(sources) && HasMask(c) && i < 64
    ensures MaskOf(AddSources(Cleared(), sources), c)[i]
            <==> NamesAll(sources, c) || Source(c, i + InitialSvId(c)) in sources
  {
    MasksOfList(sources, c, i);
    NamesPlain(sources, c, i);
  }

  /** Plain ids never set the top bit. */
  lemma NotAll(sources: seq<Source>, c: Constellation)
    requires Plain(sources) && HasMask(c) && !NamesAll(sources, c)
    ensures MaskOf(AddSources(Cleared(), sources), c) != AllBits()
  {
    PlainBit(sources, c, 63);
    assert InRange(Source(c, 63 + InitialSvId(c)));
    assert AllBits()[63];
  }

  // ----- Masks to list to masks -----

  /** The ids of the mask can be converted back: all of them, or none beyond bit 31. */
  predicate Convertible(mask: Mask) {
    mask == AllBits() || forall i :: 32 <= i < 64 ==> !mask[i]
  }

  lemma InConfigToList(config: Config, s: Source)
    ensures s in ConfigToList(config) <==>
            HasMask(s.constellation) && s in MaskToList(MaskOf(config, s.constellation), s.constellation)
  {
    InMaskToList(config.bds, Beidou, s);
    InMaskToList(config.gal, Galileo, s);
    InMaskToList(config.glo, Glonass, s);
    InMaskToList(config.qzss, Qzss, s);
  }

  lemma BackShiftable(config: Config, s: Source)
    requires forall c :: HasMask(c) ==> Convertible(MaskOf(config, c))
    requires s in ConfigToList(config)
    ensures Shiftable(s)
  {
    InConfigToList(config, s);
    InMaskToList(MaskOf(config, s.constellation), s.constellation, s);
    assert Convertible(MaskOf(config, s.constellation));
  }

  /** Converted back, a mask has the bits it had; with bit 31 it also has all above. */
  lemma BackBit(config: Config, c: Constellation, i: nat)
    requires HasMask(c) && i < 64 && Convertible(MaskOf(config, c))
    ensures Names(ConfigToList(config), c, i) <==> MaskOf(config, c)[i] || (i > 31 && MaskOf(config, c)[31])
  {
    var mask, list := MaskOf(config, c), ConfigToList(config);
    if mask[i] || (i > 31 && mask[31]) {
      var one := Source(c, if mask == AllBits() then 0 else (if i > 31 then 31 else i) + InitialSvId(c));
      InConfigToList(config, one);
      InMaskToList(mask, c, one);
      assert NamedBy(one, c, i);
    }
    if Names(list, c, i) {
      var s :| s in list && NamedBy(s, c, i);
      InConfigToList(config, s);
      InMaskToList(mask, c, s);
    }
  }

  /**
   * Masks that can be converted back come back the same if and only if bit 31,
   * the sign of the shifted int, is clear in each that does not name all.
   */
  lemma MasksRoundTripIff(config: Config)
    requires forall c :: HasMask(c) ==> Convertible(MaskOf(config, c))
    ensures forall s :: s in ConfigToList(config) ==> Shiftable(s)
    ensures AddSources(Cleared(), ConfigToList(config)) == config
            <==> forall c :: HasMask(c) ==> MaskOf(config, c) == AllBits() || !MaskOf(config, c)[31]
  {
    var list := ConfigToList(config);
    forall s | s in list
      ensures Shiftable(s)
    {
      BackShiftable(config, s);
    }
    var back := AddSources(Cleared(), list);
    forall c | HasMask(c)
      ensures MaskOf(back, c) == MaskOf(config, c)
              <==> MaskOf(config, c) == AllBits() || !MaskOf(config, c)[31]
    {
      MaskBack(config, c);
    }
    assert back == config <==> forall c :: HasMask(c) ==> MaskOf(back, c) == MaskOf(config, c) by {
      assert HasMask(Glonass) && HasMask(Beidou) && HasMask(Qzss) && HasMask(Galileo);
    }
  }

  lemma MaskBack(config: Config, c: Constellation)
    requires HasMask(c) && Convertible(MaskOf(config, c))
    requires forall s :: s in ConfigToList(config) ==> Shiftable(s)
    ensures MaskOf(AddSources(Cleared(), ConfigToList(config)), c) == MaskOf(config, c)
            <==> MaskOf(config, c) == AllBits() || !MaskOf(config, c)[31]
  {
    var list := ConfigToList(config);
    var mask, back := MaskOf(config, c), MaskOf(AddSources(Cleared(), list), c);
    forall i | 0 <= i < 64
      ensures back[i] <==> mask[i] || (i > 31 && mask[31])
    {
      MasksOfList(list, c, i);
      BackBit(config, c, i);
    }
    if mask != AllBits() && mask[31] {
      assert !mask[32] && back[32];
    } else if mask == AllBits() {
      assert forall i :: 0 <= i < 64 ==> back[i] == mask[i];
    }
  }
}
