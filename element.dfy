/**
 * The state of the `rpgme-element` custom element: its design record, its seed
 * and its display name, with the handlers that change them.
 */
module Element {
  import opened Wrappers
  import opened CharacterDesign
  import opened SeedCodec

  class RpgMeElement {
    var design: Design
    var seed: string
    var name: string
    /** The `seed` query parameter this element last wrote into the page address, if any. */
    ghost var urlSeed: Option<string>

    constructor ()
      ensures design == Initial && seed == DefaultSeed && name == ""
      ensures seed == Encode(design)
      ensures urlSeed == None
    {
      design := Initial;
      seed := "000000000";
      name := "";
      urlSeed := None;
      InitialSeedIsEncoding();
    }

    /** `_updateUrl`: the page address now carries the current seed. */
    method UpdateUrl()
      modifies this`urlSeed
      ensures urlSeed == Some(seed)
    {
      urlSeed := Some(seed);
    }

    /** `_updateSeed`: the seed is re-encoded from the design and written to the address. */
    method UpdateSeed()
      modifies this`seed, this`urlSeed
      ensures seed == Encode(design) && urlSeed == Some(seed)
    {
      seed := Encode(design);
      UpdateUrl();
    }

    /** `_toggleProperty`: a checkbox sets its property to 1 when checked and 0 otherwise. */
    method ToggleProperty(property: Field, checked: bool)
      modifies this`design, this`seed, this`urlSeed
      ensures Get(design, property) == if checked then 1 else 0
      ensures forall g :: g != property ==> Get(design, g) == Get(old(design), g)
      ensures seed == Encode(design) && urlSeed == Some(seed)
      ensures name == old(name)
    {
      design := With(design, property, if checked then 1 else 0);
      UpdateSeed();
    }

    /** `_updateCharacter`: a slider stores its already-parsed value in its property. */
    method UpdateCharacter(property: Field, value: int)
      modifies this`design, this`seed, this`urlSeed
      ensures Get(design, property) == value
      ensures forall g :: g != property ==> Get(design, g) == Get(old(design), g)
      ensures seed == Encode(design) && urlSeed == Some(seed)
      ensures name == old(name)
    {
      design := With(design, property, value);
      UpdateSeed();
    }

    /** `_onInputChange`: only the name changes; the seed and the address stay as they were. */
    method OnInputChange(value: string)
      modifies this`name
      ensures name == value
    {
      name := value;
    }

    /** `_applySeed`: the decoded seed is spread over the design and the seed is kept verbatim. */
    method ApplySeed(s: string)
      modifies this`design, this`seed
      ensures design == MergeSeed(old(design), s)
      ensures seed == s
    {
      var newDesign := DecodeSeed(s);
      MergeSeedIsOverride(design, s);
      design := Override(design, newDesign);
      seed := s;
    }

    /** `connectedCallback`: the address seed is applied only when it has exactly ten characters. */
    method ConnectedCallback(param: Option<string>)
      modifies this`design, this`seed
      ensures Gate(param) ==> design == MergeSeed(old(design), param.value) && seed == param.value
      ensures !Gate(param) ==> design == old(design) && seed == old(seed)
    {
      if param.Some? && param.value != "" && |param.value| == 10 {
        ApplySeed(param.value);
      }
    }
  }

  /**
   * A freshly constructed element that is connected with the seed it would write
   * itself keeps its default design; a nine-character seed never reaches the design.
   */
  method ReloadOwnSeed(d: Design) returns (e: RpgMeElement)
    requires InRange(d)
    ensures fresh(e) && e.design == Initial && e.seed == DefaultSeed
  {
    e := new RpgMeElement();
    GateRejectsOwnSeeds(d);
    e.ConnectedCallback(Some(Encode(d)));
  }
}
