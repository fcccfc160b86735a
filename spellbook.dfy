/**
 * `HarrySpellbook.process_voice_command` of main.py: the recognised text is
 * lower-cased and the registry is scanned, category by category and spell by
 * spell, for the first spell whose lower-cased name occurs in the text.
 */
module Spellbook {
  import opened Text
  import opened SpellRegistry
  import opened Controller

  /** What a voice command makes the app do, in order. */
  datatype Effect =
    | Cast(action: string, spell: string, message: string)   // `controller.execute(...)` ran and returned `message`
    | Speak(text: string)                                     // `tts.speak(text)`
    | Notify(title: string, message: string)                  // `notification.notify(title=..., message=...)`

  /** The notice raised when no spell name occurs in the text. */
  const UnknownSpell: Effect := Notify("❗ Unknown Spell", "Spell not found!")

  /** The spell at position `s` of category `c` exists and its lower-cased name occurs in `text`. */
  ghost predicate MatchAt(reg: Registry, text: string, c: int, s: int)
  {
    0 <= c < |reg| && 0 <= s < |reg[c].1| && Contains(text, Lower(reg[c].1[s].0))
  }

  /** `(c, s)` matches and no position before it, in scan order, does. */
  ghost predicate FirstMatchAt(reg: Registry, text: string, c: int, s: int)
  {
    MatchAt(reg, text, c, s) &&
    forall c', s' :: c' < c || (c' == c && s' < s) ==> !MatchAt(reg, text, c', s')
  }

  /** Executing the spell at a position, then speaking the result. */
  function CastEffects(reg: Registry, c: nat, s: nat): seq<Effect>
    requires c < |reg| && s < |reg[c].1|
  {
    var (name, spell) := reg[c].1[s];
    var message := Execute(spell.action, name);
    [Cast(spell.action, name, message), Speak(message)]
  }

  /**
   * `process_voice_command`: nothing for an empty result; otherwise the first
   * matching spell in scan order is executed once and its result spoken, or,
   * with no match, the unknown-spell notice is raised.
   */
  method ProcessVoiceCommand(registry: Registry, result: string) returns (effects: seq<Effect>)
    ensures result == "" ==> effects == []
    ensures result != "" && (forall c, s :: !MatchAt(registry, Lower(result), c, s)) ==>
              effects == [UnknownSpell]
    ensures forall c: nat, s: nat :: result != "" && FirstMatchAt(registry, Lower(result), c, s) ==>
              effects == CastEffects(registry, c, s)
  {
    if result == "" {
      return [];
    }
    var text := Lower(result);
    var c := 0;
    while c < |registry|
      invariant 0 <= c <= |registry|
      invariant forall c', s' :: c' < c ==> !MatchAt(registry, text, c', s')
    {
      var spells := registry[c].1;
      var s := 0;
      while s < |spells|
        invariant 0 <= s <= |spells|
        invariant forall c', s' :: c' < c || (c' == c && s' < s) ==> !MatchAt(registry, text, c', s')
      {
        var (name, spell) := spells[s];
        if Contains(text, Lower(name)) {
          assert MatchAt(registry, text, c, s);
          effects := CastEffects(registry, c, s);
          return;
        }
        s := s + 1;
      }
      c := c + 1;
    }
    effects := [UnknownSpell];
  }

  /** Whenever some spell name occurs in the text, a first one in scan order exists. */
  lemma {:induction false} FirstMatchExists(reg: Registry, text: string, c: nat, s: nat)
    requires MatchAt(reg, text, c, s)
    ensures exists c0: nat, s0: nat :: FirstMatchAt(reg, text, c0, s0)
    decreases c, s
  {
    if !FirstMatchAt(reg, text, c, s) {
      var c', s' :| (c' < c || (c' == c && s' < s)) && MatchAt(reg, text, c', s');
      FirstMatchExists(reg, text, c', s');
    }
  }

  /** The first match is unique, so the command casts at most one spell. */
  lemma FirstMatchUnique(reg: Registry, text: string, c1: int, s1: int, c2: int, s2: int)
    requires FirstMatchAt(reg, text, c1, s1) && FirstMatchAt(reg, text, c2, s2)
    ensures c1 == c2 && s1 == s2
  {
  }

  /** In the default registry, "lumos please" matches `Lumos`, the first spell of `Light Spells`. */
  lemma LumosPleaseMatchesLumos(result: string)
    requires Lower(result) == "lumos please"
    ensures FirstMatchAt(DefaultSpells(), Lower(result), 0, 0)
    ensures CastEffects(DefaultSpells(), 0, 0) ==
            [Cast("brightness_max", "Lumos", "Lumos cast successfully!"), Speak("Lumos cast successfully!")]
  {
    var text := Lower(result);
    var lumos := DefaultSpells()[0].1[0];
    assert lumos == ("Lumos", Spell("Illuminate surroundings", "brightness_max", "💡", "lumos"));
    LowerLumos();
    assert StartsWith(text, "lumos");
    assert "brightness_max" in CastIds;
    assert Execute("brightness_max", "Lumos") == "Lumos cast successfully!";
  }

  lemma LowerLumos()
    ensures Lower("Lumos") == "lumos"
  {
    assert Lower("Lumos")[0] == 'l';
  }

  /**
   * First match, not best match: a spell listed after another whose name it
   * contains is never cast, whatever the text.
   */
  lemma ShadowedNeverCast(reg: Registry, text: string, c1: int, s1: int, c2: int, s2: int)
    requires 0 <= c1 < |reg| && 0 <= s1 < |reg[c1].1|
    requires 0 <= c2 < |reg| && 0 <= s2 < |reg[c2].1|
    requires c1 < c2 || (c1 == c2 && s1 < s2)
    requires Contains(Lower(reg[c2].1[s2].0), Lower(reg[c1].1[s1].0))
    ensures !FirstMatchAt(reg, text, c2, s2)
  {
    if MatchAt(reg, text, c2, s2) {
      ContainsTransitive(text, Lower(reg[c2].1[s2].0), Lower(reg[c1].1[s1].0));
      assert MatchAt(reg, text, c1, s1);
    }
  }

  /** "xyzzy" contains no name of the default registry. */
  lemma XyzzyMatchesNothing()
    ensures forall c, s :: !MatchAt(DefaultSpells(), Lower("xyzzy"), c, s)
  {
    var text := Lower("xyzzy");
    assert text == "xyzzy";
    forall c, s | 0 <= c < |DefaultSpells()| && 0 <= s < |DefaultSpells()[c].1|
      ensures !Contains(text, Lower(DefaultSpells()[c].1[s].0))
    {
      var name := Lower(DefaultSpells()[c].1[s].0);
      if c == 0 && s == 0 {
        assert name == "lumos";
        MissingCharNotContained(text, name, 0);
      } else if c == 0 && s == 1 {
        assert name == "nox";
        MissingCharNotContained(text, name, 0);
      } else if c == 2 && s == 2 {
        assert name == "accio";
        MissingCharNotContained(text, name, 0);
      } else {
        assert |name| > 5;
        LongerNeverContained(text, name);
      }
    }
  }
}
