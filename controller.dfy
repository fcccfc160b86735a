/**
 * `SpellController` of main.py: an action id is looked up in a fixed table of
 * handlers, and the handler's result string is returned. The handlers'
 * platform calls (brightness, notifications, speech, vibration) are not
 * modelled; only the strings they return are.
 */
module Controller {
  import opened Wrappers

  /** The handler methods `SpellController` defines. */
  datatype Action =
    | BrightnessMax | BrightnessMin | Mute | VolumeMax | OpenSettings
    | OpenMusic | WebSearch | VibrateLock | ShowNotification

  /** The action id under which a handler is registered; it is also the handler's method name. */
  function ActionId(a: Action): string
  {
    match a
    case BrightnessMax => "brightness_max"
    case BrightnessMin => "brightness_min"
    case Mute => "mute"
    case VolumeMax => "volume_max"
    case OpenSettings => "open_settings"
    case OpenMusic => "open_music"
    case WebSearch => "web_search"
    case VibrateLock => "vibrate_lock"
    case ShowNotification => "show_notification"
  }

  /** The handler registered under `id`, if there is one. */
  function ParseAction(id: string): (r: Option<Action>)
    ensures r.Some? ==> ActionId(r.value) == id
    ensures r.None? ==> forall a: Action :: ActionId(a) != id
  {
    if id == "brightness_max" then Some(BrightnessMax)
    else if id == "brightness_min" then Some(BrightnessMin)
    else if id == "mute" then Some(Mute)
    else if id == "volume_max" then Some(VolumeMax)
    else if id == "open_settings" then Some(OpenSettings)
    else if id == "open_music" then Some(OpenMusic)
    else if id == "web_search" then Some(WebSearch)
    else if id == "vibrate_lock" then Some(VibrateLock)
    else if id == "show_notification" then Some(ShowNotification)
    else None
  }

  /** Looking up a handler's own id finds that handler, so no two handlers share an id. */
  lemma ParseActionId(a: Action)
    ensures ParseAction(ActionId(a)) == Some(a)
  {
  }

  /** The string a handler returns for the spell named `spell`; it always opens with the spell's name. */
  function HandlerResult(a: Action, spell: string): (msg: string)
    ensures |msg| > |spell| && msg[..|spell|] == spell
  {
    match a
    case VibrateLock => spell + " stunned!"
    case ShowNotification => spell + " detected!"
    case _ => spell + " cast successfully!"
  }

  /** The ids whose handler reports `<spell> cast successfully!`. */
  const CastIds: set<string> :=
    {"brightness_max", "brightness_min", "mute", "volume_max", "open_settings", "open_music", "web_search"}

  /** Every id the table knows. */
  const KnownIds: set<string> := CastIds + {"vibrate_lock", "show_notification"}

  /** The message `execute` returns for an id the table lacks. */
  const Failed: string := "Spell failed!"

  /**
   * `execute`: the result string of the handler registered under `action`,
   * or `Spell failed!` when there is none; it never raises.
   */
  function Execute(action: string, spell: string): (r: string)
    ensures action in CastIds ==> r == spell + " cast successfully!"
    ensures action == "vibrate_lock" ==> r == spell + " stunned!"
    ensures action == "show_notification" ==> r == spell + " detected!"
    ensures action !in KnownIds ==> r == Failed
  {
    match ParseAction(action)
    case Some(a) => HandlerResult(a, spell)
    case None => Failed
  }

  /**
   * `Spell failed!` is returned exactly for unknown ids: no spell name makes a
   * handler's message read `Spell failed!`.
   */
  lemma FailsExactlyWhenUnknown(action: string, spell: string)
    ensures Execute(action, spell) == Failed <==> action !in KnownIds
  {
    var r := Execute(action, spell);
    if action in CastIds {
      assert |r| != |Failed|;
    } else if action == "vibrate_lock" {
      assert r[|spell|] == ' ';
      assert |spell| == 4 ==> r[4] != Failed[4];
    } else if action == "show_notification" {
      assert r[|spell|] == ' ';
      assert |spell| == 3 ==> r[3] != Failed[3];
    }
  }

  /** The action ids `SpellController.__init__` enters into its table, in order. */
  const WrittenActionIds: seq<string> := [
    "brightness_max", "brightness_min", "mute", "volume_max", "open_settings",
    "open_music", "web_search", "dnd_mode", "vibrate_lock", "show_notification"
  ]

  /** The table with only the nine handlers the class defines. */
  const DefinedActionIds: seq<string> := [
    "brightness_max", "brightness_min", "mute", "volume_max", "open_settings",
    "open_music", "web_search", "vibrate_lock", "show_notification"
  ]

  /**
   * Building the table as `__init__` does: each entry evaluates `self.<id>`,
   * and the first id naming no handler method raises `AttributeError`
   * (carried here as that id).
   */
  function BuildActionTable(ids: seq<string>): (r: Result<seq<Action>, string>)
    ensures r.Success? ==> |r.value| == |ids|
  {
    if ids == [] then Success([])
    else match ParseAction(ids[0])
      case None => Failure(ids[0])
      case Some(a) =>
        match BuildActionTable(ids[1..])
        case Failure(e) => Failure(e)
        case Success(rest) => Success([a] + rest)
  }

  /**
   * The table builds exactly when every id names a handler, and then maps each
   * id to its handler in order; otherwise it raises on the first id that names none.
   */
  lemma {:induction false} BuildActionTableSpec(ids: seq<string>)
    ensures BuildActionTable(ids).Success? <==> forall i :: 0 <= i < |ids| ==> ParseAction(ids[i]).Some?
    ensures BuildActionTable(ids).Success? ==>
              var table := BuildActionTable(ids).value;
              |table| == |ids| && forall i :: 0 <= i < |ids| ==> ActionId(table[i]) == ids[i]
    ensures BuildActionTable(ids).Failure? ==>
              exists i :: 0 <= i < |ids| && ids[i] == BuildActionTable(ids).error && ParseAction(ids[i]).None? &&
                          forall j :: 0 <= j < i ==> ParseAction(ids[j]).Some?
  {
    if ids != [] && ParseAction(ids[0]).Some? {
      var tail := ids[1..];
      BuildActionTableSpec(tail);
      assert forall i :: 1 <= i < |ids| ==> ids[i] == tail[i - 1];
      match BuildActionTable(tail)
      case Failure(e) =>
        assert BuildActionTable(ids) == Failure(e);
        var i :| 0 <= i < |tail| && tail[i] == e && ParseAction(tail[i]).None? &&
                 forall j :: 0 <= j < i ==> ParseAction(tail[j]).Some?;
        assert ids[i + 1] == e && ParseAction(ids[i + 1]).None?;
        assert forall j :: 0 <= j < i + 1 ==> ParseAction(ids[j]).Some?;
      case Success(rest) =>
        var table := [ParseAction(ids[0]).value] + rest;
        assert BuildActionTable(ids) == Success(table);
        assert forall i :: 1 <= i < |ids| ==> table[i] == rest[i - 1];
    } else if ids != [] {
      assert ParseAction(ids[0]).None?;
    }
  }

  /** The table fails on the first id, in order, that names no handler. */
  lemma {:induction false} BuildFailsAtFirstUnknown(ids: seq<string>, k: int)
    requires 0 <= k < |ids| && ParseAction(ids[k]).None?
    requires forall j :: 0 <= j < k ==> ParseAction(ids[j]).Some?
    ensures BuildActionTable(ids) == Failure(ids[k])
  {
    if k > 0 {
      assert forall j :: 0 <= j < k - 1 ==> ids[1..][j] == ids[j + 1];
      BuildFailsAtFirstUnknown(ids[1..], k - 1);
    }
  }

  /** As written, constructing the controller raises on the `dnd_mode` entry. */
  lemma WrittenTableRaises()
    ensures BuildActionTable(WrittenActionIds) == Failure("dnd_mode")
  {
    var ids := WrittenActionIds;
    assert ParseAction(ids[7]).None?;
    forall j | 0 <= j < 7 ensures ParseAction(ids[j]).Some? {
      assert ids[j] in CastIds;
    }
    BuildFailsAtFirstUnknown(ids, 7);
  }

  /** The nine-handler table builds, and it lists exactly the ids `Execute` knows. */
  lemma DefinedTableBuilds()
    ensures BuildActionTable(DefinedActionIds).Success?
    ensures forall id :: id in DefinedActionIds <==> id in KnownIds
  {
    DefinedIdsAreKnown();
    BuildActionTableSpec(DefinedActionIds);
    forall i | 0 <= i < |DefinedActionIds| ensures ParseAction(DefinedActionIds[i]).Some? {
      KnownIdsHaveHandlers(DefinedActionIds[i]);
    }
  }

  /** The nine-handler table lists exactly the known ids. */
  lemma DefinedIdsAreKnown()
    ensures forall id :: id in DefinedActionIds <==> id in KnownIds
  {
  }

  /** The known ids are exactly the ids that have a handler. */
  lemma KnownIdsHaveHandlers(id: string)
    ensures id in KnownIds <==> ParseAction(id).Some?
  {
  }
}
