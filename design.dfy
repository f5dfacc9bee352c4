/**
 * The character-design record of the `rpgme-element` custom element: twelve
 * integer properties, and the two ways the element builds a new record from an
 * old one (replacing one property, and spreading a partial record over it).
 */
module CharacterDesign {

  /** The property names of `characterDesign`, in the order the constructor lists them. */
  datatype Field =
    | Base | Hair | Face | FaceItem | Accessories | Pants | Shirt | Skin
    | Size | Fire | Walking | HatColor

  /** One value of `characterDesign`. Values are plain integers: nothing clamps them. */
  datatype Design = Design(
    base: int, hair: int, face: int, faceitem: int, accessories: int, pants: int,
    shirt: int, skin: int, size: int, fire: int, walking: int, hatcolor: int)

  /** The record the constructor installs: everything 0 except a size of 200. */
  const Initial: Design :=
    Design(base := 0, hair := 0, face := 0, faceitem := 0, accessories := 0, pants := 0,
           shirt := 0, skin := 0, size := 200, fire := 0, walking := 0, hatcolor := 0)

  /** `design[property]` */
  function Get(d: Design, f: Field): int
  {
    match f
    case Base => d.base
    case Hair => d.hair
    case Face => d.face
    case FaceItem => d.faceitem
    case Accessories => d.accessories
    case Pants => d.pants
    case Shirt => d.shirt
    case Skin => d.skin
    case Size => d.size
    case Fire => d.fire
    case Walking => d.walking
    case HatColor => d.hatcolor
  }

  /** `{ ...design, [property]: v }`: property `f` becomes `v` and nothing else changes. */
  function With(d: Design, f: Field, v: int): (r: Design)
    ensures Get(r, f) == v
    ensures forall g :: g != f ==> Get(r, g) == Get(d, g)
  {
    match f
    case Base => d.(base := v)
    case Hair => d.(hair := v)
    case Face => d.(face := v)
    case FaceItem => d.(faceitem := v)
    case Accessories => d.(accessories := v)
    case Pants => d.(pants := v)
    case Shirt => d.(shirt := v)
    case Skin => d.(skin := v)
    case Size => d.(size := v)
    case Fire => d.(fire := v)
    case Walking => d.(walking := v)
    case HatColor => d.(hatcolor := v)
  }

  /** The value of `{ ...d, ...p }` at one property. */
  function Pick(d: Design, p: map<Field, int>, f: Field): int
  {
    if f in p then p[f] else Get(d, f)
  }

  /** `{ ...d, ...p }`: every property `p` names takes `p`'s value, every other keeps `d`'s. */
  function Override(d: Design, p: map<Field, int>): (r: Design)
    ensures forall f :: f in p ==> Get(r, f) == p[f]
    ensures forall f :: f !in p ==> Get(r, f) == Get(d, f)
  {
    Design(
      base := Pick(d, p, Base), hair := Pick(d, p, Hair), face := Pick(d, p, Face),
      faceitem := Pick(d, p, FaceItem), accessories := Pick(d, p, Accessories),
      pants := Pick(d, p, Pants), shirt := Pick(d, p, Shirt), skin := Pick(d, p, Skin),
      size := Pick(d, p, Size), fire := Pick(d, p, Fire), walking := Pick(d, p, Walking),
      hatcolor := Pick(d, p, HatColor))
  }

  /** Two records that agree on every property are the same record. */
  lemma Extensionality(a: Design, b: Design)
    requires forall f :: Get(a, f) == Get(b, f)
    ensures a == b
  {
    assert Get(a, Base) == Get(b, Base) && Get(a, Hair) == Get(b, Hair);
    assert Get(a, Face) == Get(b, Face) && Get(a, FaceItem) == Get(b, FaceItem);
    assert Get(a, Accessories) == Get(b, Accessories) && Get(a, Pants) == Get(b, Pants);
    assert Get(a, Shirt) == Get(b, Shirt) && Get(a, Skin) == Get(b, Skin);
    assert Get(a, Size) == Get(b, Size) && Get(a, Fire) == Get(b, Fire);
    assert Get(a, Walking) == Get(b, Walking) && Get(a, HatColor) == Get(b, HatColor);
  }
}
