/** The asset tables of lib/clown-club/phaser/assets/AssetRegistry.ts: the
    sprite sheets the client loads, the characters and objects with their
    emoji stand-ins, and the direction-to-frame maps. JavaScript object
    literals are insertion-ordered key/value lists here, so a lookup is
    OrderedMap.Get and `Object.entries` keeps the written order. */
module AssetRegistry {
  import opened Wrappers
  import opened Text
  import opened OrderedMap

  datatype SpriteConfig = SpriteConfig(key: string, path: string, frameWidth: nat, frameHeight: nat, columns: nat, rows: nat)

  datatype CharacterAsset = CharacterAsset(emoji: string, spriteKey: Option<string>, name: string)

  datatype ObjectAsset = ObjectAsset(emoji: string, spriteKey: Option<string>, interactive: Option<bool>, action: Option<string>)

  // ---------------------------------------------------------------------
  // Directions
  // ---------------------------------------------------------------------

  /** The eight sheet columns, counter-clockwise from south. */
  datatype Compass = South | SouthWest | West | NorthWest | North | NorthEast | East | SouthEast

  function Column(d: Compass): (c: nat)
    ensures c < 8
  {
    match d
    case South => 0
    case SouthWest => 1
    case West => 2
    case NorthWest => 3
    case North => 4
    case NorthEast => 5
    case East => 6
    case SouthEast => 7
  }

  /** The four directions the world scenes use. */
  datatype Dir4 = Down | Left | Up | Right

  function Opposite(d: Dir4): Dir4 {
    match d
    case Down => Up
    case Up => Down
    case Left => Right
    case Right => Left
  }

  /** `DIRECTION_4_TO_8`: the four directions land on the even columns. */
  function Direction4To8(d: Dir4): (c: nat)
    ensures c < 8 && c % 2 == 0
    ensures d == Down ==> c == Column(South)
    ensures d == Up ==> c == Column(North)
    ensures d == Left ==> c == Column(West)
    ensures d == Right ==> c == Column(East)
  {
    match d
    case Down => 0
    case Left => 2
    case Up => 4
    case Right => 6
  }

  /** `CLOWN_DIRECTION_ROWS`: rows of the clown sheets, down first. */
  function ClownDirectionRow(d: Dir4): (row: nat)
    ensures row < 4
    ensures d == Down ==> row == 0
    ensures d == Right ==> row == 1
    ensures d == Left ==> row == 2
    ensures d == Up ==> row == 3
  {
    match d
    case Down => 0
    case Right => 1
    case Left => 2
    case Up => 3
  }

  /** `TUTORIAL_DIRECTION_ROWS`: rows of tutorial-style sheets. */
  function TutorialDirectionRow(d: Dir4): (row: nat)
    ensures row < 4
    ensures d == Down ==> row == 0
    ensures d == Up ==> row == 1
    ensures d == Left ==> row == 2
    ensures d == Right ==> row == 3
  {
    match d
    case Down => 0
    case Up => 1
    case Left => 2
    case Right => 3
  }

  /** The maps are one-to-one, and opposite directions sit half a turn
      apart among the eight columns. */
  lemma DirectionMaps(a: Dir4, b: Dir4)
    ensures Direction4To8(Opposite(a)) == (Direction4To8(a) + 4) % 8
    ensures Direction4To8(a) == Direction4To8(b) ==> a == b
    ensures ClownDirectionRow(a) == ClownDirectionRow(b) ==> a == b
    ensures TutorialDirectionRow(a) == TutorialDirectionRow(b) ==> a == b
  {
  }

  lemma ColumnsDistinct(a: Compass, b: Compass)
    ensures Column(a) == Column(b) ==> a == b
  {
  }

  // ---------------------------------------------------------------------
  // Sprite sheets
  // ---------------------------------------------------------------------

  const ClownColors: seq<string> := ["white", "garnet", "blue", "pink", "green", "yellow", "purple", "orange"]

  const ClownPrefix: string := "clown-"

  function ClownKey(color: string): string { ClownPrefix + color }

  /** Every sheet lives at `/assets/characters/<key>.png`. */
  function SheetPath(key: string): string { "/assets/characters/" + key + ".png" }

  /** The clown colour variants: 256-pixel frames, 3 columns by 4 rows. */
  function ClownConfig(color: string): SpriteConfig {
    SpriteConfig(ClownKey(color), SheetPath(ClownKey(color)), 256, 256, 3, 4)
  }

  /** `generateClownSpriteConfigs`, one entry per colour in colour order. */
  function ClownSpriteConfigs(): (r: Assoc<string, SpriteConfig>)
    ensures |r| == |ClownColors|
    ensures forall i :: 0 <= i < |r| ==> r[i].1.key == r[i].0 && StartsWith(r[i].0, ClownPrefix)
  {
    seq(|ClownColors|, i requires 0 <= i < |ClownColors| => (ClownKey(ClownColors[i]), ClownConfig(ClownColors[i])))
  }

  /** The sheets listed by hand before the clown variants are spread in. */
  const FixedSpriteConfigs: Assoc<string, SpriteConfig> := [
    ("penguin-blue", SpriteConfig("penguin-blue", SheetPath("penguin-blue"), 36, 52, 8, 3)),
    ("clown-spritesheet", SpriteConfig("clown-spritesheet", SheetPath("clown-spritesheet"), 256, 256, 3, 4)),
    ("green-cap", SpriteConfig("green-cap", SheetPath("green-cap"), 16, 18, 3, 4))
  ]

  /** `spriteConfigs`. */
  function SpriteConfigs(): Assoc<string, SpriteConfig> {
    FixedSpriteConfigs + ClownSpriteConfigs()
  }

  /** Prefixing cannot merge two different colours. */
  lemma ClownKeyInjective(a: string, b: string)
    ensures ClownKey(a) == ClownKey(b) <==> a == b
  {
    assert a == ClownKey(a)[|ClownPrefix|..];
    assert b == ClownKey(b)[|ClownPrefix|..];
  }

  lemma ClownColorsDistinct()
    ensures forall a, b :: 0 <= a < b < |ClownColors| ==> ClownColors[a] != ClownColors[b]
    ensures "spritesheet" !in ClownColors
  {
  }

  /** Entry i of the registry: a fixed sheet, or the clown colour i - 3. */
  lemma EntryAt(i: nat)
    requires i < |SpriteConfigs()|
    ensures |SpriteConfigs()| == 11
    ensures i < 3 ==> SpriteConfigs()[i] == FixedSpriteConfigs[i]
    ensures i >= 3 ==> SpriteConfigs()[i] == (ClownKey(ClownColors[i - 3]), ClownConfig(ClownColors[i - 3]))
  {
    assert |FixedSpriteConfigs| == 3;
    if i >= 3 {
      assert SpriteConfigs()[i] == ClownSpriteConfigs()[i - 3];
    }
  }

  lemma KeysDiffer(i: nat, j: nat)
    requires i < j < |SpriteConfigs()|
    ensures SpriteConfigs()[i].0 != SpriteConfigs()[j].0
  {
    EntryAt(i);
    EntryAt(j);
    ClownColorsDistinct();
    if j >= 3 {
      if i >= 3 {
        ClownKeyInjective(ClownColors[i - 3], ClownColors[j - 3]);
      } else if i == 1 {
        ClownKeyInjective("spritesheet", ClownColors[j - 3]);
      } else {
        assert SpriteConfigs()[i].0[0] != 'c';
        assert SpriteConfigs()[j].0[0] == 'c';
      }
    }
  }

  /** The registry is consistent: no key is listed twice, each entry's
      `key` field is the name it is filed under, and each sheet's path is
      derived from that key. */
  lemma SpriteConfigsWellFormed()
    ensures |SpriteConfigs()| == 11 && DistinctKeys(SpriteConfigs())
    ensures forall i :: 0 <= i < |SpriteConfigs()| ==>
      SpriteConfigs()[i].1.key == SpriteConfigs()[i].0 && SpriteConfigs()[i].1.path == SheetPath(SpriteConfigs()[i].0)
  {
    var all := SpriteConfigs();
    EntryAt(0);
    forall i, j | 0 <= i < j < |all| ensures all[i].0 != all[j].0 {
      KeysDiffer(i, j);
    }
    forall i | 0 <= i < |all|
      ensures all[i].1.key == all[i].0 && all[i].1.path == SheetPath(all[i].0)
    {
      EntryAt(i);
    }
  }

  /** Every colour has its own 256×256 sheet of 3×4 frames. */
  lemma ClownConfigLookup(color: string)
    requires color in ClownColors
    ensures Get(SpriteConfigs(), ClownKey(color)) == Some(SpriteConfig(ClownKey(color), SheetPath(ClownKey(color)), 256, 256, 3, 4))
  {
    var i :| 0 <= i < |ClownColors| && ClownColors[i] == color;
    var n := |FixedSpriteConfigs|;
    SpriteConfigsWellFormed();
    assert SpriteConfigs()[n + i] == ClownSpriteConfigs()[i];
    GetAt(SpriteConfigs(), n + i);
  }

  // ---------------------------------------------------------------------
  // Characters and objects
  // ---------------------------------------------------------------------

  const UnknownEmoji: string := "\U{2753}"

  const Characters: Assoc<string, CharacterAsset> := [
    ("clown", CharacterAsset("\U{1F921}", Some("clown-spritesheet"), "Clown")),
    ("penguin", CharacterAsset("\U{1F427}", Some("penguin-blue"), "Penguin")),
    ("bear", CharacterAsset("\U{1F43B}", None, "Bear")),
    ("fox", CharacterAsset("\U{1F98A}", None, "Fox")),
    ("cat", CharacterAsset("\U{1F431}", None, "Cat")),
    ("dog", CharacterAsset("\U{1F436}", None, "Dog")),
    ("rabbit", CharacterAsset("\U{1F430}", None, "Rabbit")),
    ("greencap", CharacterAsset("\U{1F9E2}", Some("green-cap"), "Green Cap"))
  ]

  const Objects: Assoc<string, ObjectAsset> := [
    ("door", ObjectAsset("\U{1F6AA}", None, Some(true), Some("zone-change"))),
    ("arcade", ObjectAsset("\U{1F579}\U{FE0F}", None, Some(true), Some("launch-game"))),
    ("tree", ObjectAsset("\U{1F332}", None, None, None)),
    ("snowman", ObjectAsset("\U{26C4}", None, None, None)),
    ("igloo", ObjectAsset("\U{1F3E0}", None, Some(true), None))
  ]

  /** Facts about the two tables that the lookups below rely on: keys are
      distinct, every emoji is non-empty and none is the unknown marker,
      characters carry distinct emoji, and no sheet key is empty. */
  lemma TablesWellFormed()
    ensures DistinctKeys(Characters) && DistinctKeys(Objects)
    ensures forall i :: 0 <= i < |Characters| ==> Characters[i].1.emoji != "" && Characters[i].1.emoji != UnknownEmoji
    ensures forall i :: 0 <= i < |Objects| ==> Objects[i].1.emoji != "" && Objects[i].1.emoji != UnknownEmoji
    ensures forall i, j :: 0 <= i < j < |Characters| ==> Characters[i].1.emoji != Characters[j].1.emoji
    ensures forall i :: 0 <= i < |Characters| && Characters[i].1.spriteKey.Some? ==> Characters[i].1.spriteKey.value != ""
  {
  }

  /** `characters[t]?.emoji || '❓'`. */
  function CharacterEmoji(t: string): (r: string)
    ensures r != ""
    ensures r == UnknownEmoji <==> !HasKey(Characters, t)
    ensures forall i :: 0 <= i < |Characters| && Characters[i].0 == t ==> r == Characters[i].1.emoji
  {
    TablesWellFormed();
    GetSpec(Characters, t);
    forall i | 0 <= i < |Characters| && Characters[i].0 == t ensures Get(Characters, t) == Some(Characters[i].1) {
      GetAt(Characters, i);
    }
    match Get(Characters, t)
    case Some(a) => if a.emoji != "" then a.emoji else UnknownEmoji
    case None => UnknownEmoji
  }

  /** `objects[t]?.emoji || '❓'`. */
  function ObjectEmoji(t: string): (r: string)
    ensures r != ""
    ensures r == UnknownEmoji <==> !HasKey(Objects, t)
    ensures forall i :: 0 <= i < |Objects| && Objects[i].0 == t ==> r == Objects[i].1.emoji
  {
    TablesWellFormed();
    GetSpec(Objects, t);
    forall i | 0 <= i < |Objects| && Objects[i].0 == t ensures Get(Objects, t) == Some(Objects[i].1) {
      GetAt(Objects, i);
    }
    match Get(Objects, t)
    case Some(a) => if a.emoji != "" then a.emoji else UnknownEmoji
    case None => UnknownEmoji
  }

  /** The sheet a character type is drawn from, if any. */
  function SpriteOf(t: string): (r: Option<string>)
    ensures r.Some? ==> HasKey(Characters, t)
    ensures forall i :: 0 <= i < |Characters| && Characters[i].0 == t ==> r == Characters[i].1.spriteKey
  {
    GetSpec(Characters, t);
    TablesWellFormed();
    forall i | 0 <= i < |Characters| && Characters[i].0 == t ensures Get(Characters, t) == Some(Characters[i].1) {
      GetAt(Characters, i);
    }
    match Get(Characters, t)
    case Some(a) => a.spriteKey
    case None => None
  }

  /** Every character that names a sheet names one the registry loads. */
  lemma CharacterSpritesRegistered(t: string)
    requires SpriteOf(t).Some?
    ensures HasKey(SpriteConfigs(), SpriteOf(t).value)
  {
    var all := SpriteConfigs();
    assert all[0].0 == "penguin-blue" && all[1].0 == "clown-spritesheet" && all[2].0 == "green-cap";
    GetSpec(Characters, t);
    var i :| 0 <= i < |Characters| && Characters[i].0 == t;
  }

  /** `hasCharacterSprite` as written: `characters[t]?.spriteKey !== null`.
      For an unknown type the left side is `undefined`, which is not
      `null`, so the answer is true. */
  function HasCharacterSpriteAsWritten(t: string): (r: bool)
    ensures !HasKey(Characters, t) ==> r
    ensures HasKey(Characters, t) ==> (r <==> SpriteOf(t).Some?)
  {
    GetSpec(Characters, t);
    match Get(Characters, t)
    case Some(a) => a.spriteKey.Some?
    case None => true
  }

  /** An unknown character type is reported as having a sprite although no
      sheet exists for it. */
  lemma UnknownCharacterReportsSprite()
    ensures HasCharacterSpriteAsWritten("dragon") && SpriteOf("dragon").None?
  {
    assert !HasKey(Characters, "dragon");
  }

  /** `hasCharacterSprite` as evidently intended: true exactly when the type
      is known and names a sheet. */
  function HasCharacterSprite(t: string): (r: bool)
    ensures r <==> SpriteOf(t).Some?
  {
    match Get(Characters, t)
    case Some(a) => a.spriteKey.Some?
    case None => false
  }

  /** With the corrected check, "has a sprite" means the sheet is loaded. */
  lemma HasSpriteMeansLoadable(t: string)
    requires HasCharacterSprite(t)
    ensures HasKey(Characters, t) && HasKey(SpriteConfigs(), SpriteOf(t).value)
  {
    CharacterSpritesRegistered(t);
  }
}
