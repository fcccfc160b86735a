# Spellbook: spell registry and command dispatch

This project models the logic core of a voice-controlled "spellbook" app. The app turns spoken or
typed spell phrases into device actions such as brightness, volume, notifications and vibration.
Two pieces are modelled:

- **The spell registry** (`SpellDatabase`, main.py). It is an insertion-ordered dict from category
  name to an insertion-ordered dict from spell name to a record `{description, action, icon, animation}`.
  It is loaded from `spells.json`. A missing or unreadable file silently falls back to a built-in
  default. `add_spell` inserts or overwrites one spell and then saves the whole registry.
- **Command dispatch**:
  - `SpellController.execute` (main.py) looks an action id up in a fixed handler table and returns
    the handler's result string, or `Spell failed!`.
  - `process_voice_command` (main.py) casts the first spell, in category order and then spell order,
    whose lower-cased name occurs in the lower-cased text.
  - The background `VoiceService.on_spell` (service/main.py) classifies text by a fixed priority of
    eight keywords. The service runs while its `running` flag holds.

Modules:

- `Wrappers` holds Option and Result.
- `Text` models `str.lower()` and Python's substring test `needle in text`.
- `OrderedDict` models a Python dict with string keys as a sequence of (key, value) pairs in
  insertion order. Iteration order decides which spell matches first, so a Dafny `map` would lose it.
- `SpellRegistry` holds the registry values, the default registry, `load_spells`, and the
  `SpellDatabase` class with `add_spell` and `save_spells`.
- `Controller` holds the action table and `execute`.
- `Spellbook` holds `process_voice_command`, a method with the source's nested loops. The registry
  is passed in, and the method returns the trace of effects it causes.
- `Service` holds `on_spell` and the `VoiceService` class with its `running` flag.

Facts of the code that shape the model:

- The default registry holds ten spells in five categories (main.py:68-89).
- An unknown action id yields `Spell failed!` (main.py:128).
- `SpellController` defines no `dnd_mode` handler, although its table lists one; see Findings.

## Model

| member | source | states |
|---|---|---|
| `Text.Lower` | main.py:203 | `lower()` keeps the length and leaves no upper-case letter |
| `Text.LowerKeepsOthers` | main.py:203 | `lower()` changes only upper-case letters; every other character stays in place |
| `Text.ContainsIffOccursAt` | main.py:206 | `needle in text` holds exactly when some window of `text` equals `needle` |
| `Text.LongerNeverContained` | main.py:206 | a needle longer than the text never occurs in it |
| `Text.MissingCharNotContained` | main.py:206 | a needle with a character the text lacks never occurs in it |
| `Text.ContainsTransitive` | main.py:206 | a name occurring inside an occurrence also occurs in the text |
| `OrderedDict.Get` | main.py:103 | lookup misses exactly when the key is absent; a hit returns the value of an entry with that key |
| `OrderedDict.SetKeys` | main.py:104-105 | assigning `d[k]` leaves the key order as it was when `k` is present, and otherwise appends `k` at the end |
| `OrderedDict.SetEntries` | main.py:104-105 | assigning `d[k]` changes no other entry: each position holds either its old entry or `(k, v)` |
| `OrderedDict.GetSetSame` | main.py:105 | after `d[k] = v`, `d[k]` reads `v` |
| `OrderedDict.GetSetOther` | main.py:105 | after `d[k] = v`, every other key reads as before |
| `OrderedDict.SetKeepsUniqueKeys` | main.py:104-105 | assignment never duplicates a key |
| `SpellRegistry.DefaultSpells` | main.py:68-89 | the built-in registry has five categories |
| `SpellRegistry.DefaultCategories` | main.py:68-89 | the default registry has the five categories Light, Sound, Utility, Protection and Detection Spells, in that order |
| `SpellRegistry.DefaultSpellCount` | main.py:68-89 | the default registry holds ten spells |
| `SpellRegistry.DefaultWellFormed` | main.py:68-89 | no category or spell name repeats in the default registry |
| `SpellRegistry.DefaultLumos` | main.py:69-70 | `Lumos` under `Light Spells` is exactly the record with action `brightness_max` |
| `SpellRegistry.LoadSpells` | main.py:67-96 | a file that exists and parses is returned as is; otherwise the ten-spell default with `Lumos` → `brightness_max`, with no error reported |
| `SpellRegistry.WithSpell` | main.py:103-105 | after `add_spell`, looking up `spells[category][name]` gives the given record |
| `SpellRegistry.WithSpellStores` | main.py:102-105 | after `add_spell`, `spells[category][name]` is exactly the given record. A new category is appended at the end, and a new name at the end of its category. An existing name keeps its place and is overwritten |
| `SpellRegistry.WithSpellKeepsOthers` | main.py:103-105 | `add_spell` leaves every other category, and every other spell of the same category, unchanged |
| `SpellRegistry.WithSpellKeepsWellFormed` | main.py:103-105 | `add_spell` keeps all category and spell names distinct |
| `SpellRegistry.SpellDatabase.constructor` | main.py:63-65 | the database starts with the loaded registry; the file is left as it was, so defaults are not written back |
| `SpellRegistry.SpellDatabase.SaveSpells` | main.py:98-100 | the document is overwritten with the whole registry, which is unchanged |
| `SpellRegistry.SpellDatabase.AddSpell` | main.py:102-106 | the registry becomes the `add_spell` update, it is saved, and reloading the saved document yields exactly the added record |
| `SpellRegistry.AddWithDefaults` | main.py:102 | a spell added without icon and animation reloads with icon `✨` and animation `magic` |
| `Controller.ParseAction` | main.py:111-122 | a found handler is registered under exactly that id; a miss means no handler has that id |
| `Controller.ParseActionId` | main.py:111-122 | each handler is found under its own id, so ids are unambiguous |
| `Controller.HandlerResult` | main.py:130-174 | every handler's result string starts with the spell name and is longer than it |
| `Controller.Execute` | main.py:126-174 | returns `<spell> cast successfully!` for the brightness, mute, volume, settings, music and web ids, `<spell> stunned!` for `vibrate_lock`, `<spell> detected!` for `show_notification`, and `Spell failed!` for any other id; the lookup itself never raises |
| `Controller.FailsExactlyWhenUnknown` | main.py:126-128 | `Spell failed!` comes back if and only if the id is unknown, whatever the spell name |
| `Controller.KnownIdsHaveHandlers` | main.py:111-128 | the ids that `execute` answers with a handler string are exactly the nine handled ids |
| `Controller.BuildActionTable` | main.py:111-122 | a table that builds has one handler per listed id |
| `Controller.BuildActionTableSpec` | main.py:111-122 | building the table succeeds exactly when every listed id names a handler method; otherwise it raises on the first id that does not |
| `Controller.BuildFailsAtFirstUnknown` | main.py:111-122 | building raises on the first listed id, in order, that names no handler |
| `Controller.WrittenTableRaises` | main.py:119 | the table as written raises on `dnd_mode` |
| `Controller.DefinedTableBuilds` | main.py:111-122 | the table of the nine defined handlers builds and lists exactly the ids `execute` knows |
| `Spellbook.ProcessVoiceCommand` | main.py:201-210 | empty result: no effect. Otherwise the first spell, in category then spell order, whose lower-cased name occurs in the lower-cased text is executed once and its result spoken. With no such spell, only the unknown-spell notice is raised |
| `Spellbook.FirstMatchExists` | main.py:204-209 | whenever some name occurs in the text, a first match in scan order exists, so a spell is cast exactly when some name occurs |
| `Spellbook.FirstMatchUnique` | main.py:204-209 | the first match is unique, so at most one spell is cast |
| `Spellbook.ShadowedNeverCast` | main.py:204-209 | a spell listed after one whose name its own name contains is never cast (first match, not best match) |
| `Spellbook.LumosPleaseMatchesLumos` | main.py:204-209 | with the default registry, "lumos please" in any casing matches `Lumos` and casts `brightness_max` with result `Lumos cast successfully!` |
| `Spellbook.XyzzyMatchesNothing` | main.py:204-210 | with the default registry, "xyzzy" matches no spell |
| `Service.KeywordsAreLowerCase` | service/main.py:58-73 | every keyword tested is non-empty and lower-case, so it can occur in lower-cased text |
| `Service.PriorityDistinct` | service/main.py:58-73 | no handler appears twice in the order the keywords are tested |
| `Service.OnSpell` | service/main.py:49-75 | three outcomes. An empty result is ignored (returns at once), and only it. A non-empty result with no keyword in its lower-cased text is logged as `Unknown spell`, and only then. Otherwise the handler of the first keyword that occurs fires, in the order lumos, nox, silencio, sonorus, protego, accio music, alohomora, homenum revelio |
| `Service.OnSpellIgnoresCase` | service/main.py:54 | texts that lower-case alike are classified alike |
| `Service.HigherPriorityWins` | service/main.py:58-73 | when a keyword occurs, no lower-priority handler is cast |
| `Service.LumosBeatsNox` | service/main.py:58-61 | "lumos nox", in any casing, casts Lumos only |
| `Service.AccioAloneUnhandled` | service/main.py:68-75 | "accio" alone, in any casing, fires no handler and is logged as `Unknown spell` |
| `Service.StupefyUnhandled` | service/main.py:58-75 | "stupefy", in any casing, fires no handler and is logged as `Unknown spell` |
| `Service.VoiceService.constructor` | service/main.py:17-18 | a new service is running |
| `Service.VoiceService.Stop` | service/main.py:129-131 | `stop` clears `running` |
| `Service.VoiceService.Run` | service/main.py:124-127 | the loop does not run when the service is already stopped. Otherwise it ends after the sleep during which the first `stop` arrives, and keeps running only if no stop arrives |

## Left out

- Platform calls are not modelled: brightness, notifications, text-to-speech, vibration, speech-to-text, the Android audio manager and intents (main.py:131-173, service/main.py:10-12, 28-47, 79-122). Handlers are modelled only by the strings they return. The service's handlers are modelled only by which one is chosen.
- The Kivy UI is not logic and is not modelled: colours, `SpellAnimation`, screens, `build`, `start_listening` and `stop_listening`. This includes the animation widget that `execute` adds before its lookup, and the icon and animation defaults it reads for that widget (main.py:125).
- JSON reading and writing are abstracted. The file is a `Document`: missing, unreadable, or a parsed registry. `json.dump` followed by `json.load` is taken to give back the same registry.
- A parsed document that is not shaped like a registry is not modelled. This covers a JSON list, or a spell without an `action` key, on which `process_voice_command` would raise `KeyError`.
- An I/O error in `save_spells` is not modelled. In the code it propagates out of `add_spell` uncaught.
- `process_voice_command` reads `self.spell_db` and `self.controller`, which main.py never assigns. The model passes the registry in as a parameter.
- Text.Lower: lower-cases ASCII letters only. Python's `str.lower()` also folds non-ASCII letters.
- A `None` result from speech recognition is modelled as the empty string. Both are falsy and both are ignored.
- Service.VoiceService.Run: follows the loop for a finite schedule of 30-second sleeps, `stopDuring`. The real loop runs until `stop` is called from another thread, and the sleep's timing is not modelled.
- Service.VoiceService.Stop: models only the flag. The `stt.stop()` call and its log line are not modelled.
- main.py defines no delete or search operation on the registry.
- Controller.Execute: exceptions raised by the handlers' platform calls (main.py:130-174) and by the widget built at main.py:125 propagate out of `execute`. They are not modelled; only the lookup and the handlers' result strings are.
- The threading daemon and the `stt.bind` callback registration are not modelled (service/main.py:135-139, main.py:196).

## Findings

| source | as written | input that shows it | evidently intended | confidence | as-written member | corrected member |
|---|---|---|---|---|---|---|
| main.py:119 | the action table maps `'dnd_mode'` to `self.dnd_mode`, but `SpellController` defines no `dnd_mode` method | constructing `SpellController(app)` evaluates `self.dnd_mode` and raises `AttributeError`, so no action can run | a `dnd_mode` handler was meant: the default `Protego` spell is described as "Do not disturb mode" (main.py:83), and the service has `cast_dnd` (service/main.py:100-102). Since its body is unknown, the model builds the table from the nine handlers that exist, and `dnd_mode` falls to `Spell failed!` | high; not executed | `Controller.WrittenTableRaises` | `Controller.DefinedTableBuilds` |
