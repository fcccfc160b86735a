/**
 * The background voice service of service/main.py: `on_spell` maps the
 * recognised text to at most one cast by a fixed keyword priority, and the
 * service runs until its `running` flag is cleared.
 */
module Service {
  import opened Text

  /** The service's cast handlers (`cast_lumos`, `cast_nox`, ...). */
  datatype Cast =
    | CastLumos | CastNox | CastMute | CastVolumeMax | CastDnd
    | OpenMusicPlayer | OpenSettings | RevealPresence

  /** The keyword that triggers each handler. */
  function Keyword(c: Cast): string
  {
    match c
    case CastLumos => "lumos"
    case CastNox => "nox"
    case CastMute => "silencio"
    case CastVolumeMax => "sonorus"
    case CastDnd => "protego"
    case OpenMusicPlayer => "accio music"
    case OpenSettings => "alohomora"
    case RevealPresence => "homenum revelio"
  }

  /** Every keyword is non-empty and lower-case, so it can occur in lower-cased text. */
  lemma KeywordsAreLowerCase(c: Cast)
    ensures Keyword(c) != "" && IsLowerCase(Keyword(c))
  {
  }

  /** The handlers in the order `on_spell` tests their keywords. */
  const Priority: seq<Cast> :=
    [CastLumos, CastNox, CastMute, CastVolumeMax, CastDnd, OpenMusicPlayer, OpenSettings, RevealPresence]

  /** The keyword of the handler at position `i` of the priority order occurs in `text`. */
  predicate HitAt(text: string, i: int)
  {
    0 <= i < |Priority| && Contains(text, Keyword(Priority[i]))
  }

  /** What `on_spell` does with one recognised result. */
  datatype Outcome =
    | Ignored            // the result is empty: return at once
    | Unknown            // no keyword occurs: log "Unknown spell"
    | Fired(cast: Cast)  // the handler `cast` runs

  /**
   * `on_spell`: an empty result is ignored; otherwise, in the lower-cased text,
   * the handler of the first keyword in priority order that occurs fires, and
   * with no keyword the spell is logged as unknown.
   */
  function OnSpell(result: string): (r: Outcome)
    ensures r == Ignored <==> result == ""
    ensures r == Unknown <==> result != "" && forall i :: !HitAt(Lower(result), i)
    ensures r.Fired? ==>
              exists i :: HitAt(Lower(result), i) && Priority[i] == r.cast &&
                          forall j :: j < i ==> !HitAt(Lower(result), j)
  {
    if result == "" then Ignored
    else
      var text := Lower(result);
      if Contains(text, "lumos") then assert HitAt(text, 0); Fired(CastLumos)
      else if Contains(text, "nox") then assert HitAt(text, 1); Fired(CastNox)
      else if Contains(text, "silencio") then assert HitAt(text, 2); Fired(CastMute)
      else if Contains(text, "sonorus") then assert HitAt(text, 3); Fired(CastVolumeMax)
      else if Contains(text, "protego") then assert HitAt(text, 4); Fired(CastDnd)
      else if Contains(text, "accio music") then assert HitAt(text, 5); Fired(OpenMusicPlayer)
      else if Contains(text, "alohomora") then assert HitAt(text, 6); Fired(OpenSettings)
      else if Contains(text, "homenum revelio") then assert HitAt(text, 7); Fired(RevealPresence)
      else Unknown
  }

  /** Matching ignores case: texts that lower-case alike are classified alike. */
  lemma OnSpellIgnoresCase(a: string, b: string)
    requires Lower(a) == Lower(b)
    ensures OnSpell(a) == OnSpell(b)
  {
  }

  /** Of several keywords, only the one earliest in priority order is cast. */
  lemma HigherPriorityWins(result: string, i: int, j: int)
    requires 0 <= i < j < |Priority|
    requires HitAt(Lower(result), i)
    ensures OnSpell(result) != Fired(Priority[j])
  {
    var text := Lower(result);
    if OnSpell(result) == Fired(Priority[j]) {
      var k :| HitAt(text, k) && Priority[k] == Priority[j] && forall m :: m < k ==> !HitAt(text, m);
      PriorityDistinct(k, j);
    }
  }

  /** No handler appears twice in the priority order. */
  lemma PriorityDistinct(a: int, b: int)
    requires 0 <= a < |Priority| && 0 <= b < |Priority|
    ensures Priority[a] == Priority[b] ==> a == b
  {
  }

  /** "lumos nox", in any casing, casts Lumos only. */
  lemma LumosBeatsNox(result: string)
    requires Lower(result) == "lumos nox"
    ensures OnSpell(result) == Fired(CastLumos)
  {
    assert StartsWith("lumos nox", "lumos");
    assert HitAt(Lower(result), 0);
  }

  /** "accio" alone, in any casing, is not a keyword: only "accio music" is. */
  lemma AccioAloneUnhandled(result: string)
    requires Lower(result) == "accio"
    ensures OnSpell(result) == Unknown
  {
    AccioHitsNothing(Lower(result));
  }

  lemma AccioHitsNothing(text: string)
    requires text == "accio"
    ensures forall i :: !HitAt(text, i)
  {
    MissingCharNotContained(text, "lumos", 0);
    MissingCharNotContained(text, "nox", 0);
    LongerNeverContained(text, "silencio");
    LongerNeverContained(text, "sonorus");
    LongerNeverContained(text, "protego");
    LongerNeverContained(text, "accio music");
    LongerNeverContained(text, "alohomora");
    LongerNeverContained(text, "homenum revelio");
  }

  /** "stupefy", in any casing, has no handler in the service. */
  lemma StupefyUnhandled(result: string)
    requires Lower(result) == "stupefy"
    ensures OnSpell(result) == Unknown
  {
    StupefyHitsNothing(Lower(result));
  }

  lemma StupefyHitsNothing(text: string)
    requires text == "stupefy"
    ensures forall i :: !HitAt(text, i)
  {
    MissingCharNotContained(text, "lumos", 0);
    MissingCharNotContained(text, "nox", 0);
    MissingCharNotContained(text, "sonorus", 1);
    MissingCharNotContained(text, "protego", 1);
    LongerNeverContained(text, "silencio");
    LongerNeverContained(text, "accio music");
    LongerNeverContained(text, "alohomora");
    LongerNeverContained(text, "homenum revelio");
  }

  /** The service object; only its `running` flag is modelled. */
  class VoiceService {
    var running: bool

    /** `__init__`: the service starts out running. */
    constructor()
      ensures running
    {
      running := true;
    }

    /** `stop`: clears the flag, so the run loop exits at its next test. */
    method Stop()
      modifies this
      ensures !running
    {
      running := false;
    }

    /**
     * `run`: sleeps in 30-second steps while `running` holds. `stopDuring[i]`
     * says whether `stop` is called during the i-th sleep; the loop is followed
     * for at most `|stopDuring|` sleeps. It ends after the sleep in which the
     * first stop arrives, or at once if the service was already stopped.
     */
    method Run(stopDuring: seq<bool>) returns (sleeps: nat)
      modifies this
      ensures !old(running) ==> sleeps == 0 && !running
      ensures sleeps <= |stopDuring|
      ensures running <==> old(running) && forall i :: 0 <= i < |stopDuring| ==> !stopDuring[i]
      ensures old(running) && !running ==>
                0 < sleeps && stopDuring[sleeps - 1] && forall i :: 0 <= i < sleeps - 1 ==> !stopDuring[i]
    {
      sleeps := 0;
      while running && sleeps < |stopDuring|
        invariant sleeps <= |stopDuring|
        invariant !old(running) ==> sleeps == 0 && !running
        invariant running <==> old(running) && forall i :: 0 <= i < sleeps ==> !stopDuring[i]
        invariant old(running) && !running ==>
                    0 < sleeps && stopDuring[sleeps - 1] && forall i :: 0 <= i < sleeps - 1 ==> !stopDuring[i]
        decreases |stopDuring| - sleeps
      {
        if stopDuring[sleeps] {
          Stop();
        }
        sleeps := sleeps + 1;
      }
    }
  }
}
