/**
 * The autoload script run from .zshrc in each interactive kitty shell: it
 * reads the profile the setup wizard saved and launches the pokemon command
 * with it.
 *
 * Reading the profile is a parameter (`StateFile`), and so is whether
 * starting the child process raises; the child's own exit status is never
 * looked at.
 */
module KittyAutoload {
  import opened PyText
  import opened KittySetup
  import KittyPalette
  import KittyAdapter
  import KittyThresholds

  /** What reading the profile gives: no file, a read or JSON error, or the saved keys and values. */
  datatype StateFile = Absent | Unreadable | Loaded(state: map<string, string>)

  /** `_load_state`: the saved profile, or nothing when the file is absent or cannot be read as JSON. */
  function LoadState(file: StateFile): (r: Option<map<string, string>>)
    ensures r.Some? <==> file.Loaded?
    ensures r.Some? ==> r.value == file.state
  {
    if file.Loaded? then Some(file.state) else None
  }

  /** `state.get(key, default)`: the stored value, or the default for a missing key. */
  function Get(state: map<string, string>, key: string, default: string): (v: string)
    ensures key in state ==> v == state[key]
    ensures key !in state ==> v == default
  {
    if key in state then state[key] else default
  }

  /**
   * `_build_command`: the saved binary (default "pokemon"), then the stripped
   * selector as is when it is all digits, after "-n" otherwise, or nothing
   * when it is empty.  Unlike the preview, the name keeps its letter case.
   */
  function BuildCommand(state: map<string, string>): (argv: seq<string>)
    ensures 1 <= |argv| <= 3 && argv[0] == Get(state, BinaryKey, "pokemon")
    ensures var sel := Strip(Get(state, SelectorKey, ""));
      (|argv| == 1 <==> sel == "")
      && (|argv| > 1 ==> argv[|argv| - 1] == sel)
      && (|argv| == 3 <==> sel != "" && !AllDigits(sel))
      && (|argv| == 3 ==> argv[1] == "-n")
  {
    var bin := Get(state, BinaryKey, "pokemon");
    var selector := Strip(Get(state, SelectorKey, ""));
    if selector == "" then [bin]
    else if AllDigits(selector) then [bin, selector]
    else [bin, "-n", selector]
  }

  /** The selector a command line asks for: the last argument after the binary. */
  function SelectorOf(argv: seq<string>): (sel: string)
    requires |argv| >= 1
    ensures |argv| == 1 ==> sel == ""
    ensures |argv| > 1 ==> sel == argv[|argv| - 1]
  {
    if |argv| == 1 then "" else argv[|argv| - 1]
  }

  /** The command line gives back the stripped selector, and shows whether it was read as a number. */
  lemma CommandRoundTrip(state: map<string, string>)
    ensures var argv := BuildCommand(state);
      SelectorOf(argv) == Strip(Get(state, SelectorKey, ""))
      && (|argv| == 2 <==> AllDigits(SelectorOf(argv)))
  {
  }

  /** The child's environment: the parent's, the lower-cased text mode, and the password when it is non-empty. */
  function ChildEnv(env: map<string, string>, state: map<string, string>): (e: map<string, string>)
    ensures KittyPalette.TextModeVar in e && e[KittyPalette.TextModeVar] == Lower(Get(state, TextModeKey, "auto"))
    ensures Get(state, PasswordKey, "") != "" ==> PasswordVar in e && e[PasswordVar] == state[PasswordKey]
    ensures Get(state, PasswordKey, "") == "" ==> (PasswordVar in e <==> PasswordVar in env)
    ensures forall k :: k in env && k != KittyPalette.TextModeVar && (k != PasswordVar || Get(state, PasswordKey, "") == "") ==>
      k in e && e[k] == env[k]
    ensures e.Keys == env.Keys + {KittyPalette.TextModeVar} + (if Get(state, PasswordKey, "") != "" then {PasswordVar} else {})
  {
    var e := env[KittyPalette.TextModeVar := Lower(Get(state, TextModeKey, "auto"))];
    var password := Get(state, PasswordKey, "");
    if password != "" then e[PasswordVar := password] else e
  }

  /** The process `main` starts. */
  datatype Launch = Launch(argv: seq<string>, env: map<string, string>)

  /**
   * `main`: nothing outside kitty or without a non-empty profile; otherwise one
   * launch, with exit code 1 exactly when starting it raises.
   */
  method Autoload(env: map<string, string>, file: StateFile, launchRaises: bool)
    returns (exitCode: int, attempted: Option<Launch>)
    ensures attempted.Some? <==> KittyAdapter.WindowIdVar in env && file.Loaded? && file.state != map[]
    ensures attempted.Some? ==> attempted.value == Launch(BuildCommand(file.state), ChildEnv(env, file.state))
    ensures exitCode == 1 <==> attempted.Some? && launchRaises
    ensures exitCode == 0 || exitCode == 1
  {
    if KittyAdapter.WindowIdVar !in env {
      return 0, None;
    }
    var state := LoadState(file);
    if state.None? || state.value == map[] {
      return 0, None;
    }
    var childEnv := env;
    childEnv := childEnv[KittyPalette.TextModeVar := Lower(Get(state.value, TextModeKey, "auto"))];
    var rcPassword := Get(state.value, PasswordKey, "");
    if rcPassword != "" {
      childEnv := childEnv[PasswordVar := rcPassword];
    }
    var cmd := BuildCommand(state.value);
    attempted := Some(Launch(cmd, childEnv));
    if launchRaises {
      return 1, attempted;
    }
    return 0, attempted;
  }

  // ---------------------------------------------------------------------
  // What the wizard saves is what the shell replays

  /** The saved profile read back key by key. */
  lemma PayloadGets(selector: string, textMode: string, password: string, pokemonBin: string)
    ensures var state := SaveStatePayload(selector, textMode, password, pokemonBin);
      Get(state, SelectorKey, "") == Strip(selector)
      && Get(state, BinaryKey, "pokemon") == pokemonBin
      && Get(state, TextModeKey, "auto") == textMode
      && Get(state, PasswordKey, "") == password
  {
  }

  /**
   * For a profile the wizard saved, with a selector already in lower case,
   * the shell launches the preview's command without "-v", in the preview's
   * environment.
   */
  lemma AutoloadReplaysPreview(env: map<string, string>, selector: string, textMode: string,
                               password: string, pokemonBin: string)
    requires textMode in {"auto", "light", "dark"}
    requires Lower(Strip(selector)) == Strip(selector)
    ensures var state := SaveStatePayload(selector, textMode, password, pokemonBin);
      BuildCommand(state) + ["-v"] == PreviewArgv(pokemonBin, selector)
      && ChildEnv(env, state) == PreviewEnv(env, textMode, password)
  {
    ReplayedCommand(selector, textMode, password, pokemonBin);
    ModeNamesLower();
    ReplayedEnv(env, selector, textMode, password, pokemonBin);
  }

  lemma ReplayedCommand(selector: string, textMode: string, password: string, pokemonBin: string)
    requires Lower(Strip(selector)) == Strip(selector)
    ensures BuildCommand(SaveStatePayload(selector, textMode, password, pokemonBin)) + ["-v"]
      == PreviewArgv(pokemonBin, selector)
  {
    PayloadGets(selector, textMode, password, pokemonBin);
    StripIdempotent(selector);
  }

  lemma ReplayedEnv(env: map<string, string>, selector: string, textMode: string, password: string,
                    pokemonBin: string)
    requires Lower(textMode) == textMode
    ensures ChildEnv(env, SaveStatePayload(selector, textMode, password, pokemonBin))
      == PreviewEnv(env, textMode, password)
  {
    var state := SaveStatePayload(selector, textMode, password, pokemonBin);
    PayloadGets(selector, textMode, password, pokemonBin);
    ChildEnvIsPreviewEnv(env, state);
  }

  /** The child's environment is the preview's, for the saved mode in lower case and the saved password. */
  lemma ChildEnvIsPreviewEnv(env: map<string, string>, state: map<string, string>)
    ensures ChildEnv(env, state)
      == PreviewEnv(env, Lower(Get(state, TextModeKey, "auto")), Get(state, PasswordKey, ""))
  {
  }

  /** A name typed with capitals is previewed in lower case but replayed as typed. */
  lemma ReplayKeepsCase()
    ensures var state := SaveStatePayload("Pikachu", "auto", "", "pokemon");
      BuildCommand(state) == ["pokemon", "-n", "Pikachu"]
      && PreviewArgv("pokemon", "Pikachu") == ["pokemon", "-n", "pikachu", "-v"]
  {
    CapitalisedReplay();
    CapitalisedPreview();
  }

  lemma CapitalisedReplay()
    ensures BuildCommand(SaveStatePayload("Pikachu", "auto", "", "pokemon")) == ["pokemon", "-n", "Pikachu"]
  {
    PayloadGets("Pikachu", "auto", "", "pokemon");
    CapitalisedName();
  }

  lemma CapitalisedPreview()
    ensures PreviewArgv("pokemon", "Pikachu") == ["pokemon", "-n", "pikachu", "-v"]
  {
    CapitalisedName();
  }

  lemma CapitalisedName()
    ensures Strip("Pikachu") == "Pikachu" && !AllDigits("Pikachu") && Lower("Pikachu") == "pikachu"
  {
    assert StripLeft("Pikachu") == "Pikachu";
    assert StripRight("Pikachu") == "Pikachu";
    assert !AllDigits("Pikachu") by {
      assert !IsDigit("Pikachu"[0]);
    }
    CapitalisedLower();
  }

  lemma CapitalisedLower()
    ensures Lower("Pikachu") == "pikachu"
  {
    assert Lower("Pikachu")[0] == 'p';
  }

  /** A text mode chosen in the wizard decides the palette the adapter uses in every new shell. */
  lemma SavedModeDecidesPalette(env: map<string, string>, selector: string, textMode: string,
                                password: string, pokemonBin: string,
                                table: KittyThresholds.Thresholds, path: string)
    requires textMode == "light" || textMode == "dark"
    ensures var state := SaveStatePayload(selector, textMode, password, pokemonBin);
      KittyPalette.PaletteForPath(ChildEnv(env, state), table, path)
      == (if textMode == "light" then KittyPalette.DarkBg else KittyPalette.LightBg)
  {
    PayloadGets(selector, textMode, password, pokemonBin);
    ModeNamesLower();
  }

  /** A saved mode in capitals still forces the palette: the script lower-cases it. */
  lemma SavedModeCaseIgnored(env: map<string, string>, state: map<string, string>,
                             table: KittyThresholds.Thresholds, path1: string, path2: string)
    requires Lower(Get(state, TextModeKey, "auto")) in {"light", "dark"}
    ensures KittyPalette.PaletteForPath(ChildEnv(env, state), table, path1)
      == KittyPalette.PaletteForPath(ChildEnv(env, state), table, path2)
  {
    var e := ChildEnv(env, state);
    LowerIdempotent(Get(state, TextModeKey, "auto"));
    KittyPalette.OverrideIgnoresCase(e, table, path1, path2);
  }
}
