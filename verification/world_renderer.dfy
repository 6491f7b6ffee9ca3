/** The pure helpers at the end of lib/clown-club/phaser/WorldRenderer.ts:
    which sheet draws a player's `character` string, how far that sheet is
    scaled, and where the crown and name tag sit around it. Drawing calls
    are left out. Scales are `real`. */
module WorldRenderer {
  import opened Wrappers
  import opened Text
  import opened OrderedMap
  import opened AssetRegistry

  /** Strings that are already sheet keys and are passed through. */
  predicate DirectKey(character: string) {
    StartsWith(character, ClownPrefix) || character == "penguin-blue" || character == "green-cap"
  }

  /** `Object.entries(characters).find(([, c]) => c.emoji === e)`. */
  function FindByEmoji(entries: Assoc<string, CharacterAsset>, e: string): (r: Option<CharacterAsset>)
    ensures r.None? <==> forall i :: 0 <= i < |entries| ==> entries[i].1.emoji != e
    ensures r.Some? ==> exists i :: (0 <= i < |entries| && entries[i].1 == r.value && r.value.emoji == e
      && forall j :: 0 <= j < i ==> entries[j].1.emoji != e)
  {
    if |entries| == 0 then None
    else if entries[0].1.emoji == e then Some(entries[0].1)
    else
      var r := FindByEmoji(entries[1..], e);
      assert forall i :: 0 < i < |entries| ==> entries[i] == entries[1..][i - 1];
      assert r.Some? ==> exists i :: (0 <= i < |entries| && entries[i].1 == r.value && r.value.emoji == e
        && forall j :: 0 <= j < i ==> entries[j].1.emoji != e)
      by {
        if r.Some? {
          var i :| 0 <= i < |entries| - 1 && entries[1..][i].1 == r.value && r.value.emoji == e
            && forall j :: 0 <= j < i ==> entries[1..][j].1.emoji != e;
          assert entries[i + 1].1 == r.value;
          forall j | 0 < j < i + 1 ensures entries[j].1.emoji != e {
            assert entries[j] == entries[1..][j - 1];
          }
        }
      }
      r
  }

  /** `resolveCharacterSpriteKey`: a sheet key is returned unchanged; an
      emoji names the sheet of the first character drawn with it; anything
      else, or a character without a sheet, gives null. */
  function ResolveCharacterSpriteKey(character: string): (r: Option<string>)
    ensures DirectKey(character) ==> r == Some(character)
    ensures !DirectKey(character) && r.Some? ==>
      r.value != "" && exists i :: 0 <= i < |Characters| && Characters[i].1.emoji == character && Characters[i].1.spriteKey == r
    ensures (forall i :: 0 <= i < |Characters| ==> Characters[i].1.emoji != character) ==> (r.Some? <==> DirectKey(character))
  {
    if DirectKey(character) then Some(character)
    else
      match FindByEmoji(Characters, character)
      case Some(a) => if a.spriteKey.Some? && a.spriteKey.value != "" then a.spriteKey else None
      case None => None
  }

  /** Every character with a sheet is found again from its emoji. */
  lemma ResolveEmoji(i: nat)
    requires i < |Characters| && Characters[i].1.spriteKey.Some?
    ensures ResolveCharacterSpriteKey(Characters[i].1.emoji) == Characters[i].1.spriteKey
  {
    TablesWellFormed();
    var e := Characters[i].1.emoji;
    assert !DirectKey(e) by {
      assert |e| == 1;
    }
    var r := FindByEmoji(Characters, e);
    var k :| 0 <= k < |Characters| && Characters[k].1 == r.value && r.value.emoji == e
      && forall j :: 0 <= j < k ==> Characters[j].1.emoji != e;
    assert k == i;
    assert r == Some(Characters[i].1);
  }

  /** Apart from the `clown-` prefix, which is passed through unchecked,
      whatever resolves is a sheet the registry loads. */
  lemma ResolvedIsRegistered(character: string)
    requires ResolveCharacterSpriteKey(character).Some? && !StartsWith(character, ClownPrefix)
    ensures HasKey(SpriteConfigs(), ResolveCharacterSpriteKey(character).value)
  {
    var r := ResolveCharacterSpriteKey(character);
    if DirectKey(character) {
      var all := SpriteConfigs();
      assert all[0].0 == "penguin-blue" && all[2].0 == "green-cap";
    } else {
      var i :| 0 <= i < |Characters| && Characters[i].1.emoji == character && Characters[i].1.spriteKey == r;
      assert SpriteOf(Characters[i].0) == r;
      CharacterSpritesRegistered(Characters[i].0);
    }
  }

  /** A clown colour the registry does not know still resolves to itself. */
  lemma UnknownClownPassesThrough()
    ensures ResolveCharacterSpriteKey("clown-teal") == Some("clown-teal")
    ensures !HasKey(SpriteConfigs(), "clown-teal")
  {
    assert StartsWith("clown-teal", ClownPrefix);
    SpriteConfigsWellFormed();
    var all := SpriteConfigs();
    var n := |FixedSpriteConfigs|;
    forall i | 0 <= i < |all| ensures all[i].0 != "clown-teal" {
      if i >= n {
        assert all[i] == ClownSpriteConfigs()[i - n];
        ClownKeyInjective(ClownColors[i - n], "teal");
      }
    }
  }

  /** `getSpriteScale`. */
  function SpriteScale(spriteKey: string, forHost: bool): (r: real)
    ensures 0.0 < r <= 3.0
    ensures StartsWith(spriteKey, ClownPrefix) ==> r == (if forHost then 0.35 else 0.4)
    ensures spriteKey == "green-cap" ==> r == (if forHost then 2.5 else 3.0)
    ensures !StartsWith(spriteKey, ClownPrefix) && spriteKey != "green-cap" ==> r == 1.0
  {
    assert spriteKey == "green-cap" ==> spriteKey[0] == 'g' != ClownPrefix[0];
    if StartsWith(spriteKey, ClownPrefix) then (if forHost then 0.35 else 0.4)
    else if spriteKey == "green-cap" then (if forHost then 2.5 else 3.0)
    else 1.0
  }

  /** The host view never draws a sprite larger than the player view. */
  lemma HostNoLarger(spriteKey: string)
    ensures SpriteScale(spriteKey, true) <= SpriteScale(spriteKey, false)
  {
  }

  datatype Positions = Positions(crownY: int, nameTagY: int)

  /** `getSpritePositions`: the crown above the sprite's centre, the tag below. */
  function SpritePositions(spriteKey: Option<string>, forHost: bool): (p: Positions)
    ensures p.crownY < 0 < p.nameTagY
    ensures spriteKey.Some? && StartsWith(spriteKey.value, ClownPrefix) ==>
      p == if forHost then Positions(-50, 50) else Positions(-58, 58)
    ensures spriteKey.None? || !StartsWith(spriteKey.value, ClownPrefix) ==>
      p == if forHost then Positions(-35, 30) else Positions(-40, 35)
  {
    if spriteKey.Some? && StartsWith(spriteKey.value, ClownPrefix) then
      (if forHost then Positions(-50, 50) else Positions(-58, 58))
    else if forHost then Positions(-35, 30)
    else Positions(-40, 35)
  }

  /** On-screen height of a registered sheet's frame. */
  function DrawnHeight(c: SpriteConfig, forHost: bool): real {
    (c.frameHeight as real) * SpriteScale(c.key, forHost)
  }

  /** For every sheet the registry loads, the crown and the name tag sit
      outside the drawn frame (the sprite is drawn centred on its origin). */
  lemma LabelsClearSprite(i: nat, forHost: bool)
    requires i < |SpriteConfigs()|
    ensures var c := SpriteConfigs()[i].1;
      var p := SpritePositions(Some(c.key), forHost);
      (-p.crownY) as real > DrawnHeight(c, forHost) / 2.0 && p.nameTagY as real > DrawnHeight(c, forHost) / 2.0
  {
    var n := |FixedSpriteConfigs|;
    var c := SpriteConfigs()[i].1;
    if i >= n {
      assert c == ClownSpriteConfigs()[i - n].1;
      assert c == ClownConfig(ClownColors[i - n]);
      assert StartsWith(c.key, ClownPrefix);
      assert c.frameHeight == 256;
    } else if i == 1 {
      assert StartsWith(c.key, ClownPrefix);
    } else {
      assert c.key[0] != 'c';
      assert !StartsWith(c.key, ClownPrefix);
    }
  }
}
