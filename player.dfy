/**
 * Playing in the current version (Rac1/Rac1.py): the `Rac1` object builds
 * the player command for each scheduled podcast and either prints it or
 * runs it, remembering what the last run returned in `mplayer_process`.
 *
 * The external player is the parameter `player`, which maps an argument
 * vector to the exit code `subprocess.call` returns.
 */
module Player {
  import opened Common
  import opened Text
  import opened Episodes
  import opened Filter

  /** `call_args`: the player command for one scheduled podcast. */
  function CallArgs(s: Scheduled): (argv: seq<string>)
    ensures |argv| == 8
    ensures argv[..4] == ["mplayer", "-cache-min", "1", "-cache"] && argv[5] == "-ss"
    ensures argv[6] == s.start && argv[7] == s.podcast.path
  {
    var flags := ["mplayer", "-cache-min", "1", "-cache"];
    var argv := flags + [IntToString(s.podcast.durationSeconds * 10), "-ss", s.start, s.podcast.path];
    assert argv[..4] == flags;
    argv
  }

  /** The word after `-cache` is an integer: ten times the podcast's
      duration in seconds. */
  lemma CallArgsCacheSize(s: Scheduled)
    ensures IsInt(CallArgs(s)[4]) && IntValue(CallArgs(s)[4]) == s.podcast.durationSeconds * 10
  {
    IntToStringRoundTrip(s.podcast.durationSeconds * 10);
  }

  /** Text wrapped in double quotes, as `'"{}"'.format(text)` writes it. */
  function Quoted(text: string): (r: string)
    ensures |r| == |text| + 2 && r[0] == '"' && r[|r| - 1] == '"' && r[1..|r| - 1] == text
  {
    "\"" + text + "\""
  }

  /** `print_args`: the command as the print-only mode shows it. It
      differs from the executed command only in its last word, which is
      the path in double quotes. */
  function PrintArgs(s: Scheduled): (words: seq<string>)
    ensures |words| == |CallArgs(s)|
    ensures forall i :: 0 <= i < 7 ==> words[i] == CallArgs(s)[i]
    ensures var w := words[7];
            |w| >= 2 && w[0] == '"' && w[|w| - 1] == '"' && w[1..|w| - 1] == CallArgs(s)[7]
  {
    CallArgs(s)[..7] + [Quoted(s.podcast.path)]
  }

  /** What playing one podcast does: print its command, or run it and
      obtain the player's exit code. */
  datatype Action = Printed(words: seq<string>) | Played(argv: seq<string>, exitCode: int)

  function ActionFor(s: Scheduled, onlyPrint: bool, player: seq<string> -> int): Action {
    if onlyPrint then Printed(PrintArgs(s)) else Played(CallArgs(s), player(CallArgs(s)))
  }

  /** The action for one podcast prints or runs its own command. */
  lemma ActionForSpec(s: Scheduled, onlyPrint: bool, player: seq<string> -> int)
    ensures var a := ActionFor(s, onlyPrint, player);
            onlyPrint ==> a.Printed? && |a.words| == 8 && a.words[6] == s.start && a.words[7] == Quoted(s.podcast.path)
    ensures var a := ActionFor(s, onlyPrint, player);
            !onlyPrint ==> a.Played? && |a.argv| == 8 && a.argv[6] == s.start && a.argv[7] == s.podcast.path
                           && a.exitCode == player(a.argv)
  {
  }

  /** One action per podcast, in order. */
  function Actions(ps: seq<Scheduled>, onlyPrint: bool, player: seq<string> -> int): seq<Action>
    decreases |ps|
  {
    if |ps| == 0 then [] else Actions(ps[..|ps| - 1], onlyPrint, player) + [ActionFor(ps[|ps| - 1], onlyPrint, player)]
  }

  /** Action `i` is the action for podcast `i`. */
  lemma {:induction false} ActionsAt(ps: seq<Scheduled>, onlyPrint: bool, player: seq<string> -> int)
    ensures |Actions(ps, onlyPrint, player)| == |ps|
    ensures forall i :: 0 <= i < |ps| ==> Actions(ps, onlyPrint, player)[i] == ActionFor(ps[i], onlyPrint, player)
    decreases |ps|
  {
    if |ps| > 0 {
      var init := ps[..|ps| - 1];
      ActionsAt(init, onlyPrint, player);
      assert forall i :: 0 <= i < |init| ==> ps[i] == init[i];
    }
  }

  /** Each action runs or prints the command of its own podcast: with that
      podcast's seek offset after `-ss` and its path as the last word. */
  lemma ActionsSpec(ps: seq<Scheduled>, onlyPrint: bool, player: seq<string> -> int)
    ensures |Actions(ps, onlyPrint, player)| == |ps|
    ensures forall i :: 0 <= i < |ps| ==> Actions(ps, onlyPrint, player)[i] == ActionFor(ps[i], onlyPrint, player)
    ensures onlyPrint ==>
              forall i :: 0 <= i < |ps| ==>
                var a := Actions(ps, onlyPrint, player)[i];
                a.Printed? && |a.words| == 8 && a.words[6] == ps[i].start && a.words[7] == Quoted(ps[i].podcast.path)
    ensures !onlyPrint ==>
              forall i :: 0 <= i < |ps| ==>
                var a := Actions(ps, onlyPrint, player)[i];
                a.Played? && |a.argv| == 8 && a.argv[6] == ps[i].start && a.argv[7] == ps[i].podcast.path
                && a.exitCode == player(a.argv)
  {
    ActionsAt(ps, onlyPrint, player);
    forall i | 0 <= i < |ps|
      ensures var a := ActionFor(ps[i], onlyPrint, player);
              && (onlyPrint ==> a.Printed? && |a.words| == 8 && a.words[6] == ps[i].start && a.words[7] == Quoted(ps[i].podcast.path))
              && (!onlyPrint ==> a.Played? && |a.argv| == 8 && a.argv[6] == ps[i].start && a.argv[7] == ps[i].podcast.path
                                 && a.exitCode == player(a.argv))
    {
      ActionForSpec(ps[i], onlyPrint, player);
    }
  }

  /** The value `mplayer_process` holds after playing `ps`: the exit code
      of the last run, or what it held before when nothing ran. */
  function LastProcess(before: Option<int>, ps: seq<Scheduled>, onlyPrint: bool, player: seq<string> -> int): Option<int> {
    if onlyPrint || |ps| == 0 then before else Some(player(CallArgs(ps[|ps| - 1])))
  }

  /** Playing one more podcast appends its action and, when it runs, makes
      its exit code the last one. */
  lemma PlayStep(ps: seq<Scheduled>, n: nat, onlyPrint: bool, player: seq<string> -> int, before: Option<int>)
    requires n < |ps|
    ensures Actions(ps[..n + 1], onlyPrint, player) == Actions(ps[..n], onlyPrint, player) + [ActionFor(ps[n], onlyPrint, player)]
    ensures LastProcess(before, ps[..n + 1], onlyPrint, player)
         == (if onlyPrint then LastProcess(before, ps[..n], onlyPrint, player) else Some(player(CallArgs(ps[n]))))
  {
    assert ps[..n + 1][..n] == ps[..n];
  }

  class Rac1 {
    /** What the last `subprocess.call` returned (an exit code). */
    var mplayerProcess: Option<int>
    /** Set by the interrupt handler, which is not part of this model. */
    var processAlreadyExiting: bool

    constructor()
      ensures mplayerProcess == None && !processAlreadyExiting
    {
      mplayerProcess := None;
      processAlreadyExiting := false;
    }

    /** `play_podcast`: print the command, or run it and keep its exit
        code. */
    method PlayPodcast(s: Scheduled, onlyPrint: bool, player: seq<string> -> int) returns (action: Action)
      modifies this
      ensures action == ActionFor(s, onlyPrint, player)
      ensures mplayerProcess == (if onlyPrint then old(mplayerProcess) else Some(player(CallArgs(s))))
      ensures processAlreadyExiting == old(processAlreadyExiting)
    {
      var callArgs := CallArgs(s);
      if onlyPrint {
        var printArgs := callArgs[..7] + [Quoted(s.podcast.path)];
        return Printed(printArgs);
      }
      var code := player(callArgs);
      mplayerProcess := Some(code);
      action := Played(callArgs, code);
    }

    /** `play_all_podcasts`: play every podcast of the list in order and
        count them. */
    method PlayAllPodcasts(podcasts: seq<Scheduled>, onlyPrint: bool, player: seq<string> -> int)
      returns (done: nat, actions: seq<Action>)
      modifies this
      ensures done == |podcasts|
      ensures actions == Actions(podcasts, onlyPrint, player)
      ensures mplayerProcess == LastProcess(old(mplayerProcess), podcasts, onlyPrint, player)
      ensures processAlreadyExiting == old(processAlreadyExiting)
    {
      done := 0;
      actions := [];
      while done < |podcasts|
        invariant 0 <= done <= |podcasts|
        invariant actions == Actions(podcasts[..done], onlyPrint, player)
        invariant mplayerProcess == LastProcess(old(mplayerProcess), podcasts[..done], onlyPrint, player)
        invariant processAlreadyExiting == old(processAlreadyExiting)
      {
        PlayStep(podcasts, done, onlyPrint, player, old(mplayerProcess));
        var action := PlayPodcast(podcasts[done], onlyPrint, player);
        actions := actions + [action];
        done := done + 1;
      }
      assert podcasts[..done] == podcasts;
    }
  }
}
