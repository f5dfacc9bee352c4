/**
 * The seed codec of `rpgme-element`: the design record written as the
 * concatenated decimal text of nine of its properties, the positional decoding
 * of a seed string back over a record, and the length test a seed taken from
 * the page address must pass before it is decoded.
 */
module SeedCodec {
  import opened Wrappers
  import opened Decimal
  import opened CharacterDesign

  /** The encoded properties, in seed order. `size`, `fire` and `walking` are not encoded. */
  const SeedKeys: seq<Field> := [Base, Face, FaceItem, Pants, Shirt, Skin, Accessories, HatColor, Hair]

  /** The seed the constructor installs. */
  const DefaultSeed: string := "000000000"

  /** The only length of address seed the element loads. */
  const LoadLength: nat := 10

  /** The nine encoded values of `d`, in seed order. */
  function SeedValues(d: Design): (vs: seq<int>)
    ensures |vs| == |SeedKeys|
    ensures forall i | 0 <= i < |SeedKeys| :: vs[i] == Get(d, SeedKeys[i])
  {
    [d.base, d.face, d.faceitem, d.pants, d.shirt, d.skin, d.accessories, d.hatcolor, d.hair]
  }

  /** Every encoded property holds a single decimal digit. */
  predicate InRange(d: Design)
  {
    forall i | 0 <= i < |SeedKeys| :: 0 <= SeedValues(d)[i] <= 9
  }

  /** The seed keys are pairwise distinct, so a positional assignment never overwrites itself. */
  lemma SeedKeysDistinct()
    ensures forall i, j | 0 <= i < j < |SeedKeys| :: SeedKeys[i] != SeedKeys[j]
  {
  }

  /** A property is encoded exactly when it is one of the nine seed keys. */
  lemma SeedKeysExactly(f: Field)
    ensures f in SeedKeys <==> f != Size && f != Fire && f != Walking
  {
  }

  /** The seed of a design: the decimal text of the nine encoded properties, concatenated. */
  function Encode(d: Design): (r: string)
    ensures |r| >= |SeedKeys|
  {
    DecimalText(d.base) + DecimalText(d.face) + DecimalText(d.faceitem)
    + DecimalText(d.pants) + DecimalText(d.shirt) + DecimalText(d.skin)
    + DecimalText(d.accessories) + DecimalText(d.hatcolor) + DecimalText(d.hair)
  }

  /** `seed.split("").map(Number)`: one number-or-NaN per character. */
  function Values(s: string): (vs: seq<JsValue>)
    ensures |vs| == |s|
    ensures forall k | 0 <= k < |s| :: vs[k] == NumberOfChar(s[k])
  {
    seq(|s|, k requires 0 <= k < |s| => NumberOfChar(s[k]))
  }

  /** `values[i] || 0`: position `i` of the seed as a digit, 0 for a non-digit or a missing position. */
  function DigitAt(s: string, i: nat): (r: int)
    ensures 0 <= r <= 9
    ensures i < |s| ==> r == DigitVal(s[i])
    ensures i >= |s| ==> r == 0
  {
    var values := Values(s);
    OrZero(if i < |values| then values[i] else Undefined)
  }

  /**
   * The design `_applySeed(s)` leaves: seed position `i` assigned to the `i`-th seed key,
   * spread over `d`.
   */
  function MergeSeed(d: Design, s: string): (r: Design)
    ensures InRange(r)
    ensures forall i | 0 <= i < |SeedKeys| :: Get(r, SeedKeys[i]) == DigitAt(s, i)
    ensures r.size == d.size && r.fire == d.fire && r.walking == d.walking
  {
    d.(base := DigitAt(s, 0), face := DigitAt(s, 1), faceitem := DigitAt(s, 2),
       pants := DigitAt(s, 3), shirt := DigitAt(s, 4), skin := DigitAt(s, 5),
       accessories := DigitAt(s, 6), hatcolor := DigitAt(s, 7), hair := DigitAt(s, 8))
  }

  /** `newDesign` of `_applySeed`: the partial record holding the nine decoded seed keys. */
  function Decoded(s: string): (p: map<Field, int>)
  {
    map[Base := DigitAt(s, 0), Face := DigitAt(s, 1), FaceItem := DigitAt(s, 2),
        Pants := DigitAt(s, 3), Shirt := DigitAt(s, 4), Skin := DigitAt(s, 5),
        Accessories := DigitAt(s, 6), HatColor := DigitAt(s, 7), Hair := DigitAt(s, 8)]
  }

  /** `seed && seed.length === 10`: absent and empty parameters are falsy. */
  function Gate(param: Option<string>): (ok: bool)
    ensures ok <==> param.Some? && |param.value| == LoadLength
  {
    param.Some? && param.value != "" && |param.value| == 10
  }

  /**
   * The `reduce` of `_applySeed`: an accumulator that starts empty and, for each
   * seed key in order, gets that key set to the digit at the key's position.
   */
  method DecodeSeed(s: string) returns (partial: map<Field, int>)
    ensures partial == Decoded(s)
  {
    var keys := SeedKeys;
    var values := Values(s);
    partial := map[];
    for index := 0 to |keys|
      invariant forall j | 0 <= j < index :: keys[j] in partial
      invariant forall f | f in partial :: f in Decoded(s) && partial[f] == Decoded(s)[f]
    {
      var key := keys[index];
      DecodedAt(s, index);
      partial := partial[key := OrZero(if index < |values| then values[index] else Undefined)];
    }
    DecodedKeys(s);
  }

  /** Position `i` of the seed lands on the `i`-th seed key of the partial record. */
  lemma DecodedAt(s: string, i: nat)
    requires i < |SeedKeys|
    ensures SeedKeys[i] in Decoded(s) && Decoded(s)[SeedKeys[i]] == DigitAt(s, i)
  {
  }

  /** The partial record names exactly the seed keys. */
  lemma DecodedKeys(s: string)
    ensures forall f | f in Decoded(s) :: f in SeedKeys
  {
  }

  // ---------------------------------------------------------------------------
  // Encoding

  /** The seed of a design whose encoded properties are digits is those digits, in seed order. */
  lemma EncodeDigits(d: Design)
    requires InRange(d)
    ensures |Encode(d)| == |SeedKeys|
    ensures forall i | 0 <= i < |SeedKeys| :: Encode(d)[i] == DigitChar(Get(d, SeedKeys[i]))
  {
    var vs := SeedValues(d);
    assert forall i | 0 <= i < |SeedKeys| :: 0 <= vs[i] <= 9;
    assert Encode(d) == [DigitChar(vs[0]), DigitChar(vs[1]), DigitChar(vs[2]),
                         DigitChar(vs[3]), DigitChar(vs[4]), DigitChar(vs[5]),
                         DigitChar(vs[6]), DigitChar(vs[7]), DigitChar(vs[8])];
  }

  /** A seed is nine characters long exactly when every encoded property is a single digit. */
  lemma EncodeLength(d: Design)
    ensures |Encode(d)| == |SeedKeys| <==> InRange(d)
    ensures InRange(d) ==> AllDigits(Encode(d))
  {
    if InRange(d) {
      EncodeDigits(d);
    } else {
      var vs := SeedValues(d);
      var i :| 0 <= i < |SeedKeys| && !(0 <= vs[i] <= 9);
      assert |DecimalText(vs[i])| >= 2;
    }
  }

  /** The seed depends only on the nine encoded properties: `size`, `fire` and `walking` never change it. */
  lemma EncodeIgnoresUnencoded(d1: Design, d2: Design)
    requires forall i | 0 <= i < |SeedKeys| :: Get(d1, SeedKeys[i]) == Get(d2, SeedKeys[i])
    ensures Encode(d1) == Encode(d2)
  {
    assert SeedValues(d1) == SeedValues(d2);
  }

  /** Two digit-valued designs with the same seed agree on every encoded property. */
  lemma EncodeInjective(d1: Design, d2: Design)
    requires InRange(d1) && InRange(d2) && Encode(d1) == Encode(d2)
    ensures forall i | 0 <= i < |SeedKeys| :: Get(d1, SeedKeys[i]) == Get(d2, SeedKeys[i])
  {
    EncodeDigits(d1);
    EncodeDigits(d2);
    forall i | 0 <= i < |SeedKeys|
      ensures Get(d1, SeedKeys[i]) == Get(d2, SeedKeys[i])
    {
      DigitCharInverse(Get(d1, SeedKeys[i]));
      DigitCharInverse(Get(d2, SeedKeys[i]));
    }
  }

  /** Setting one encoded property to a digit changes only that property's character of the seed. */
  lemma EncodeWithDigit(d: Design, k: nat, v: int)
    requires InRange(d) && k < |SeedKeys| && 0 <= v <= 9
    ensures InRange(With(d, SeedKeys[k], v))
    ensures Encode(With(d, SeedKeys[k], v)) == Encode(d)[k := DigitChar(v)]
  {
    var d' := With(d, SeedKeys[k], v);
    SeedKeysDistinct();
    assert forall i | 0 <= i < |SeedKeys| :: SeedValues(d')[i] == if i == k then v else SeedValues(d)[i];
    EncodeDigits(d);
    EncodeDigits(d');
  }

  /** The record and seed the constructor installs are consistent, and the seed has nine characters. */
  lemma InitialSeedIsEncoding()
    ensures InRange(Initial)
    ensures Encode(Initial) == DefaultSeed
    ensures |DefaultSeed| == |SeedKeys|
  {
  }

  // ---------------------------------------------------------------------------
  // Decoding

  /** Decoding the seed of a digit-valued design restores its nine encoded properties and keeps the rest. */
  lemma RoundTrip(d0: Design, d: Design)
    requires InRange(d)
    ensures MergeSeed(d0, Encode(d)) == d.(size := d0.size, fire := d0.fire, walking := d0.walking)
  {
    var r := MergeSeed(d0, Encode(d));
    var e := d.(size := d0.size, fire := d0.fire, walking := d0.walking);
    EncodeDigits(d);
    forall f
      ensures Get(r, f) == Get(e, f)
    {
      if f in SeedKeys {
        var i :| 0 <= i < |SeedKeys| && SeedKeys[i] == f;
        DigitCharInverse(Get(d, f));
      }
    }
    Extensionality(r, e);
  }

  /** Spreading the decoded partial record over a design is what `MergeSeed` describes. */
  lemma MergeSeedIsOverride(d: Design, s: string)
    ensures Override(d, Decoded(s)) == MergeSeed(d, s)
  {
  }

  /** Only the first nine characters of a seed reach the design; the rest are ignored. */
  lemma MergeSeedIgnoresTail(d: Design, s: string, t: string)
    requires |s| >= |SeedKeys|
    ensures MergeSeed(d, s + t) == MergeSeed(d, s)
  {
    assert forall i | 0 <= i < |SeedKeys| :: (s + t)[i] == s[i];
  }

  /** Non-digit characters and positions past the end of the seed decode to 0. */
  lemma MergeSeedZeroes(d: Design, s: string, i: nat)
    requires i < |SeedKeys|
    requires i >= |s| || !IsDigit(s[i])
    ensures Get(MergeSeed(d, s), SeedKeys[i]) == 0
  {
  }

  /** Decoding a design's own seed and encoding again gives that seed back. */
  lemma EncodeMergeSeed(d0: Design, d: Design)
    requires InRange(d)
    ensures Encode(MergeSeed(d0, Encode(d))) == Encode(d)
  {
    RoundTrip(d0, d);
    EncodeIgnoresUnencoded(MergeSeed(d0, Encode(d)), d);
  }

  // ---------------------------------------------------------------------------
  // The load gate

  /** No seed of a digit-valued design, the default seed included, passes the load gate. */
  lemma GateRejectsOwnSeeds(d: Design)
    requires InRange(d)
    ensures !Gate(Some(Encode(d)))
  {
    EncodeLength(d);
  }

  /** A loaded seed is never the encoding of the design it produces, so the next edit rewrites it. */
  lemma LoadedSeedNotCanonical(d: Design, s: string)
    requires Gate(Some(s))
    ensures Encode(MergeSeed(d, s)) != s
  {
    EncodeLength(MergeSeed(d, s));
  }

  /**
   * Of the seeds a design encodes to, exactly those where one property takes two
   * characters and the other eight take one pass the gate: a hair value of 10
   * encodes to ten characters, is loaded, and comes back as a hair value of 1.
   */
  lemma OverflowSeedLoads()
    ensures Encode(Initial.(hair := 10)) == "0000000010"
    ensures Gate(Some(Encode(Initial.(hair := 10))))
    ensures MergeSeed(Initial, Encode(Initial.(hair := 10))) == Initial.(hair := 1)
  {
    assert NatText(10) == "10";
  }

  /** The nine-digit seed "123456789" is written for that design, but is not loaded back. */
  lemma NineDigitSeedNotLoaded()
    ensures Encode(Initial.(base := 1, face := 2, faceitem := 3, pants := 4, shirt := 5,
                            skin := 6, accessories := 7, hatcolor := 8, hair := 9)) == "123456789"
    ensures !Gate(Some("123456789"))
    ensures !Gate(Some("12")) && !Gate(Some("")) && !Gate(None)
  {
  }
}
