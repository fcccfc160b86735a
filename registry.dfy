/**
 * The spell registry of the main app (`SpellDatabase` in main.py): a
 * category name maps to a dict from spell name to spell record, both in
 * insertion order, persisted as one JSON document.
 */
module SpellRegistry {
  import opened Wrappers
  import opened OrderedDict

  /** One spell record: `{description, action, icon, animation}`. */
  datatype Spell = Spell(description: string, action: string, icon: string, animation: string)

  type Category = Dict<Spell>

  type Registry = Dict<Category>

  /** What `spells.json` holds when the registry is loaded. */
  datatype Document =
    | Missing                     // no file at the path
    | Unreadable                  // the file exists but opening or parsing it raises
    | Json(contents: Registry)    // the file parses to this registry

  /** Every dict in the registry has distinct keys. */
  ghost predicate WellFormed(reg: Registry)
  {
    UniqueKeys(reg) && forall i :: 0 <= i < |reg| ==> UniqueKeys(reg[i].1)
  }

  /** `spells[category][name]`, or None when either key is absent. */
  function Lookup(reg: Registry, category: string, name: string): Option<Spell>
  {
    match Get(reg, category)
    case None => None
    case Some(spells) => Get(spells, name)
  }

  /** Number of spells over all categories. */
  function SpellCount(reg: Registry): nat
  {
    if reg == [] then 0 else |reg[0].1| + SpellCount(reg[1..])
  }

  /** The built-in registry used when no readable file exists; it has five categories. */
  function DefaultSpells(): (r: Registry)
    ensures |r| == 5
  {
    [ ("Light Spells",
        [ ("Lumos", Spell("Illuminate surroundings", "brightness_max", "💡", "lumos")),
          ("Nox", Spell("Extinguish light", "brightness_min", "🌑", "nox")) ]),
      ("Sound Spells",
        [ ("Silencio", Spell("Silence all sounds", "mute", "🔇", "silencio")),
          ("Sonorus", Spell("Amplify sound", "volume_max", "🔊", "sonorus")) ]),
      ("Utility Spells",
        [ ("Alohomora", Spell("Open device settings", "open_settings", "🔓", "magic")),
          ("Accio Music", Spell("Open music player", "open_music", "🎵", "magic")),
          ("Accio", Spell("Search the web", "web_search", "🔍", "magic")) ]),
      ("Protection Spells",
        [ ("Protego", Spell("Do not disturb mode", "dnd_mode", "🛡️", "protego")),
          ("Stupefy", Spell("Stun device", "vibrate_lock", "⚡", "stupefy")) ]),
      ("Detection Spells",
        [ ("Homenum Revelio", Spell("Reveal presence", "show_notification", "👁️", "magic")) ])
    ]
  }

  /** The default registry has these five categories, in this order. */
  lemma DefaultCategories()
    ensures Keys(DefaultSpells()) ==
            ["Light Spells", "Sound Spells", "Utility Spells", "Protection Spells", "Detection Spells"]
  {
  }

  /** The default registry holds ten spells. */
  lemma DefaultSpellCount()
    ensures SpellCount(DefaultSpells()) == 10
  {
    var d := DefaultSpells();
    assert d[4..][1..] == [];
    assert d[3..][1..] == d[4..];
    assert d[2..][1..] == d[3..];
    assert d[1..][1..] == d[2..];
    assert SpellCount(d[4..]) == 1;
    assert SpellCount(d[3..]) == 3;
    assert SpellCount(d[2..]) == 6;
    assert SpellCount(d[1..]) == 8;
  }

  /** No category and no spell name repeats in the default registry. */
  lemma DefaultWellFormed()
    ensures WellFormed(DefaultSpells())
  {
  }

  /** `Lumos` is filed under `Light Spells` with action `brightness_max`. */
  lemma DefaultLumos()
    ensures Lookup(DefaultSpells(), "Light Spells", "Lumos") ==
            Some(Spell("Illuminate surroundings", "brightness_max", "💡", "lumos"))
  {
    var d := DefaultSpells();
    assert Keys(d)[0] == "Light Spells";
    assert Keys(d[0].1)[0] == "Lumos";
  }

  /**
   * `load_spells`: the parsed file when it exists and parses, otherwise the
   * built-in default; a missing or broken file is not reported.
   */
  function LoadSpells(file: Document): (r: Registry)
    ensures file.Json? ==> r == file.contents
    ensures !file.Json? ==> SpellCount(r) == 10 && |r| == 5
    ensures !file.Json? ==>
              Lookup(r, "Light Spells", "Lumos").Some? && Lookup(r, "Light Spells", "Lumos").value.action == "brightness_max"
  {
    match file
    case Json(contents) => contents
    case _ =>
      DefaultSpellCount();
      DefaultLumos();
      DefaultSpells()
  }

  /**
   * The registry after `add_spell`: `spells[category]` is created empty if it is
   * new, then `spells[category][name]` is assigned `spell`.
   */
  function WithSpell(reg: Registry, category: string, name: string, spell: Spell): (r: Registry)
    ensures Lookup(r, category, name) == Some(spell)
  {
    var spells := match Get(reg, category) case Some(s) => s case None => [];
    GetSetSame(reg, category, Set(spells, name, spell));
    GetSetSame(spells, name, spell);
    Set(reg, category, Set(spells, name, spell))
  }

  /**
   * `add_spell` stores exactly the given record under `(category, name)`; a new
   * category goes to the end, a new name to the end of its category, and an
   * existing one keeps its place.
   */
  lemma WithSpellStores(reg: Registry, category: string, name: string, spell: Spell)
    ensures Lookup(WithSpell(reg, category, name, spell), category, name) == Some(spell)
    ensures Keys(WithSpell(reg, category, name, spell)) ==
            if category in Keys(reg) then Keys(reg) else Keys(reg) + [category]
    ensures Get(WithSpell(reg, category, name, spell), category).Some?
    ensures Keys(Get(WithSpell(reg, category, name, spell), category).value) ==
            match Get(reg, category)
            case None => [name]
            case Some(spells) => if name in Keys(spells) then Keys(spells) else Keys(spells) + [name]
  {
    var spells := match Get(reg, category) case Some(s) => s case None => [];
    GetSetSame(reg, category, Set(spells, name, spell));
    GetSetSame(spells, name, spell);
    SetKeys(reg, category, Set(spells, name, spell));
    SetKeys(spells, name, spell);
  }

  /** `add_spell` leaves every other category, and every other spell of the same category, as it was. */
  lemma WithSpellKeepsOthers(reg: Registry, category: string, name: string, spell: Spell)
    ensures forall c :: c != category ==> Get(WithSpell(reg, category, name, spell), c) == Get(reg, c)
    ensures forall c, n :: c != category || n != name ==>
              Lookup(WithSpell(reg, category, name, spell), c, n) == Lookup(reg, c, n)
  {
    var spells := match Get(reg, category) case Some(s) => s case None => [];
    var updated := Set(spells, name, spell);
    GetSetSame(reg, category, updated);
    forall c | c != category ensures Get(WithSpell(reg, category, name, spell), c) == Get(reg, c) {
      GetSetOther(reg, category, updated, c);
    }
    forall n | n != name ensures Get(updated, n) == Get(spells, n) {
      GetSetOther(spells, name, spell, n);
    }
  }

  /** `add_spell` keeps every key distinct. */
  lemma WithSpellKeepsWellFormed(reg: Registry, category: string, name: string, spell: Spell)
    requires WellFormed(reg)
    ensures WellFormed(WithSpell(reg, category, name, spell))
  {
    var spells := match Get(reg, category) case Some(s) => s case None => [];
    var updated := Set(spells, name, spell);
    SetKeepsUniqueKeys(reg, category, updated);
    SetEntries(reg, category, updated);
    if Get(reg, category).Some? {
      var i :| 0 <= i < |reg| && reg[i] == (category, spells);
      assert UniqueKeys(reg[i].1);
    }
    SetKeepsUniqueKeys(spells, name, spell);
  }

  /** The persisted document and the in-memory registry of the main app. */
  class SpellDatabase {
    var spells: Registry
    var stored: Document

    /** `__init__`: loads the registry; the defaults are not written back. */
    constructor(file: Document)
      ensures stored == file
      ensures spells == LoadSpells(file)
    {
      stored := file;
      spells := LoadSpells(file);
    }

    /** `save_spells`: the whole registry overwrites the document. */
    method SaveSpells()
      modifies this
      ensures spells == old(spells)
      ensures stored == Json(spells)
    {
      stored := Json(spells);
    }

    /**
     * `add_spell`: inserts or overwrites `spells[category][name]`, creating the
     * category when absent, then saves. Icon and animation default to `✨` and `magic`.
     */
    method AddSpell(category: string, name: string, description: string, action: string,
                    icon: string := "✨", animation: string := "magic")
      modifies this
      ensures spells == WithSpell(old(spells), category, name, Spell(description, action, icon, animation))
      ensures stored == Json(spells)
      ensures Lookup(LoadSpells(stored), category, name) == Some(Spell(description, action, icon, animation))
    {
      WithSpellStores(spells, category, name, Spell(description, action, icon, animation));
      spells := WithSpell(spells, category, name, Spell(description, action, icon, animation));
      SaveSpells();
    }
  }

  /** A spell added without icon and animation reloads with `✨` and `magic`. */
  method AddWithDefaults(file: Document, category: string, name: string, description: string, action: string)
    returns (reloaded: Option<Spell>)
    ensures reloaded == Some(Spell(description, action, "✨", "magic"))
  {
    var db := new SpellDatabase(file);
    db.AddSpell(category, name, description, action);
    reloaded := Lookup(LoadSpells(db.stored), category, name);
  }
}
