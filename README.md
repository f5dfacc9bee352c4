# rpgme-element: the seed codec and its state machine

`rpgme-element` is a custom element that lets a user design an RPG character
with sliders, checkboxes and a name field. The design is a record of twelve
integer properties. Nine of them (base, face, faceitem, pants, shirt, skin,
accessories, hatcolor, hair, in that order) are written as the concatenated
decimal text of their values into a short string, the *seed*. The element
writes the seed into the page address on every change to the design. When it is attached to the
page it reads the seed back from the address.

This project models:

- the design record and its one-property update and spread-merge
  (`CharacterDesign`);
- JavaScript's decimal text of an integer and `Number(c) || 0` on one character
  (`Decimal`);
- the encoder `_updateSeed`, the positional decoder `_applySeed` and the load
  gate of `connectedCallback` (`SeedCodec`);
- the element itself as a class with `design`, `seed` and `name` fields and one
  method per handler (`Element.RpgMeElement`).

The load gate accepts only seeds of exactly ten characters, while the encoder
writes nine characters for every design whose properties are single digits. The
default seed has nine characters too. So a seed the element wrote itself is
never loaded back. A shared link is meant to reproduce the design, but the code
does not do that, and this model follows the code:
`SeedCodec.GateRejectsOwnSeeds` and `SeedCodec.NineDigitSeedNotLoaded` pin the
behaviour. The only seeds that pass the gate are ten-character strings. A
design produces one only when one of its properties is outside 0..9, for
example a hair value of 10. Such a seed loads as a different design
(`SeedCodec.OverflowSeedLoads`).

Values are modelled as unbounded integers. Nothing clamps a slider value, so
`${n}` may write several characters or a minus sign, and the model keeps that.

## Model

| member | source | states |
|---|---|---|
| `Element.RpgMeElement.constructor` | rpgme.js:30-48 | the initial design has every property 0 except size 200, the seed is "000000000" and equals the encoding of that design, and the name is empty |
| `SeedCodec.InitialSeedIsEncoding` | rpgme.js:32-46 | the default design is digit-valued and its encoding is exactly the nine-character default seed |
| `CharacterDesign.With` | rpgme.js:232-234 | replacing one property sets it to the new value and leaves every other property unchanged |
| `CharacterDesign.Override` | rpgme.js:268 | spreading a partial record takes every property it names from it and every other property from the old design |
| `Decimal.NatText` | rpgme.js:296 | the decimal text of a natural number is non-empty, all digits, has no leading zero, and is one character exactly for 0..9 |
| `Decimal.DecimalText` | rpgme.js:296 | the text of an integer is one character exactly when the value is 0..9 (then it is that digit), and a minus sign followed by digits when it is negative |
| `Decimal.NatTextValue` | rpgme.js:296 | reading the decimal text of a natural number back as digits gives the number |
| `Decimal.DecimalTextValue` | rpgme.js:296 | reading the text of any integer back, sign included, gives the integer |
| `Decimal.NumberOfChar` | rpgme.js:263 | `Number` of one character is a number exactly for a digit or a white-space character, that number is 0..9, and anything else is NaN |
| `Decimal.DigitVal` | rpgme.js:263-265 | `Number(c) \|\| 0` is always 0..9, gives back the digit for a digit character, and is 0 for every non-digit |
| `SeedCodec.SeedValues` | rpgme.js:285-295 | the nine encoded values are the properties named by the seed keys, in seed order |
| `SeedCodec.SeedKeysExactly` | rpgme.js:262 | a property is encoded exactly when it is not size, fire or walking |
| `SeedCodec.Encode` | rpgme.js:296 | a seed is never shorter than nine characters |
| `SeedCodec.EncodeDigits` | rpgme.js:285-296 | for a digit-valued design the seed has nine characters and character i is the digit of the i-th key in the order base, face, faceitem, pants, shirt, skin, accessories, hatcolor, hair |
| `SeedCodec.EncodeLength` | rpgme.js:296 | a seed has exactly nine characters if and only if every encoded property is 0..9, and it is then all digits |
| `SeedCodec.EncodeIgnoresUnencoded` | rpgme.js:285-296 | two designs that agree on the nine encoded properties have the same seed, whatever their size, fire and walking |
| `SeedCodec.EncodeInjective` | rpgme.js:296 | two digit-valued designs with the same seed agree on all nine encoded properties |
| `SeedCodec.EncodeWithDigit` | rpgme.js:231-235 | setting one encoded property of a digit-valued design to a digit changes exactly that property's character of the seed |
| `SeedCodec.DigitAt` | rpgme.js:263-265 | the value at a seed position is 0..9, is the digit value of the character there, and is 0 past the end |
| `SeedCodec.MergeSeed` | rpgme.js:261-268 | after applying a seed every encoded property holds the digit at its key's position, so the design is digit-valued, and size, fire and walking keep their old values |
| `SeedCodec.DecodeSeed` | rpgme.js:262-267 | the reduce over the nine keys yields exactly the partial record of the nine positional digits |
| `SeedCodec.MergeSeedIsOverride` | rpgme.js:264-268 | spreading the decoded partial record over a design gives the positional merge |
| `SeedCodec.RoundTrip` | rpgme.js:261-268 | applying the seed of a digit-valued design restores its nine encoded properties and keeps size, fire and walking of the design it is applied to |
| `SeedCodec.EncodeMergeSeed` | rpgme.js:261-268 | re-encoding the design obtained from a digit-valued design's seed gives that seed back |
| `SeedCodec.MergeSeedIgnoresTail` | rpgme.js:262-268 | characters after the ninth never affect the applied design |
| `SeedCodec.MergeSeedZeroes` | rpgme.js:263-265 | a non-digit character or a position past the end of the seed sets its property to 0 |
| `SeedCodec.Gate` | rpgme.js:256 | a seed parameter passes the load gate if and only if it is present and has exactly ten characters |
| `SeedCodec.GateRejectsOwnSeeds` | rpgme.js:256 | the seed of any digit-valued design, and so the default seed, never passes the load gate |
| `SeedCodec.LoadedSeedNotCanonical` | rpgme.js:256-269 | a seed that passes the gate is never the encoding of the design it loads |
| `SeedCodec.OverflowSeedLoads` | rpgme.js:256 | a hair value of 10 encodes to ten characters, passes the gate and loads as a hair value of 1 |
| `SeedCodec.NineDigitSeedNotLoaded` | rpgme.js:256 | the design 1..9 encodes to "123456789", which the gate rejects, as it rejects "12", the empty string and an absent parameter |
| `Element.RpgMeElement.UpdateUrl` | rpgme.js:300-304 | the address seed becomes the current seed |
| `Element.RpgMeElement.UpdateSeed` | rpgme.js:284-298 | the seed becomes the encoding of the current design and is written to the address |
| `Element.RpgMeElement.ToggleProperty` | rpgme.js:231-237 | the toggled property becomes 1 if checked and 0 otherwise, no other property changes, the seed is the new design's encoding and the name is kept |
| `Element.RpgMeElement.UpdateCharacter` | rpgme.js:239-245 | the property takes the slider value, no other property changes, the seed is the new design's encoding and the name is kept |
| `Element.RpgMeElement.OnInputChange` | rpgme.js:247-250 | only the name changes, and the design, seed and address seed stay the same |
| `Element.RpgMeElement.ApplySeed` | rpgme.js:261-270 | the design becomes the positional merge of the seed over the old design and the seed is stored verbatim |
| `Element.RpgMeElement.ConnectedCallback` | rpgme.js:252-259 | the design and seed change only when the parameter passes the gate, and then as `ApplySeed` says |
| `Element.ReloadOwnSeed` | rpgme.js:252-259 | a new element connected with the seed of any digit-valued design keeps the default design and seed |

## Left out

- Rendering, styles and widget templates (`styles`, `render`, `_Slider`, `_Name`, `_Checkbox`): view code over an external UI toolkit.
- Reading `window.location`: `ConnectedCallback` takes the `seed` query parameter as an argument. Writing the address with `history.replaceState` is reduced to the ghost field `urlSeed`, which holds the last seed written.
- `_button`: building the share link, the clipboard write and the alert are asynchronous browser APIs.
- Element.RpgMeElement.UpdateCharacter: takes the slider value as an already-parsed integer, so the NaN that `parseInt` gives for non-numeric text is not modelled.
- Element.RpgMeElement.ToggleProperty: takes `checked` as a boolean, which stands for the truthiness of the value the checkbox passes.
- Property names are the twelve constructors of `Field`. The handlers are only called with those names, so a key outside the record is not modelled.
- Strings are sequences of Dafny characters. JavaScript's `length` and `split("")` count UTF-16 code units, so a character outside the Basic Multilingual Plane would count twice there. Such a character is not a digit either way.
- Decimal.DecimalText: matches JavaScript's `${n}` only for integers with |n| < 10^21. JavaScript numbers are doubles, which print 10^21 and above in exponent form (`"1e+21"`) and are not exact above 2^53. Every value the widgets and the decoder produce (0..500) is far below that bound.
- Setting state through HTML attributes or reactive properties (rpgme.js:22-28): `<rpgme-element seed="…">` sets `seed` without touching the design, so at connect time the seed need not be the design's encoding. Only the constructor and the handlers change state in this model.
- `requestUpdate`, `super.connectedCallback()`, the `DDDSuper` and `I18NMixin` mixins and custom-element registration: framework plumbing with no effect on the design, seed or name.
