/**
 * The Kitty terminal provider: compatibility test, `change_terminal` and
 * `clear`, as commands sent to kitty's remote control.
 *
 * The host the provider acts on is a `Host` object: the cache directory's
 * files, the commands run so far (as `Command` values; `Argv` gives the
 * command line) and the diagnostic lines printed so far (as `ErrorLine`
 * values; `LineText` gives the printed text).
 * The outcome of each command is a parameter.  Only `CalledProcessError` is
 * caught by the provider; an `OSError` (kitty missing) escapes, and so does
 * the `UnicodeDecodeError` that reporting a `CalledProcessError` raises when
 * kitty's stderr is not UTF-8.  The methods report either as `raised`.
 */
module KittyAdapter {
  import opened PyText
  import opened KittyThresholds
  import opened KittyPalette
  import opened KittyCache

  const WindowIdVar: string := "KITTY_WINDOW_ID"

  /** `is_compatible`: running inside kitty, told by the presence of the window id, whatever its value. */
  predicate IsCompatible(env: map<string, string>)
    ensures IsCompatible(env) <==> "KITTY_WINDOW_ID" in env
  {
    WindowIdVar in env
  }

  /**
   * A command the provider runs: the image converter's command line as
   * `_convert_to_png` builds it, or one of the four kitty remote-control
   * commands.  `Argv` gives the command line.
   */
  datatype Command =
    | Exec(argv: seq<string>)
    | SetBackground(image: string)
    | SetColors(palette: Palette)
    | ClearBackground
    | ResetColors

  function Argv(cmd: Command): seq<string> {
    match cmd
    case Exec(argv) => argv
    case SetBackground(image) => ["kitty", "@", "set-background-image", image]
    case SetColors(p) => ["kitty", "@", "set-colors"] + ColorArgs(p)
    case ClearBackground => ["kitty", "@", "set-background-image", "none"]
    case ResetColors => ["kitty", "@", "set-colors", "--reset"]
  }

  /** The converter runs of a conversion, as commands. */
  function Execs(runs: seq<seq<string>>): (cmds: seq<Command>)
    ensures |cmds| == |runs| && forall k :: 0 <= k < |runs| ==> cmds[k] == Exec(runs[k])
  {
    seq(|runs|, k requires 0 <= k < |runs| => Exec(runs[k]))
  }

  predicate IsSetColors(argv: seq<string>) {
    |argv| >= 3 && argv[..3] == ["kitty", "@", "set-colors"]
  }

  /** A line `print_kitty_error` prints: the report of the failed action, or kitty's own output. */
  datatype ErrorLine = FailedAction(action: string) | KittyOutput(stderr: string)

  /** The text printed for a line. */
  function LineText(line: ErrorLine): string {
    match line
    case FailedAction(action) =>
      ("Failed to " + action + " in kitty.") + " Did you configure kitty remote control correctly? (See Readme)."
    case KittyOutput(stderr) => "Output from kitty: \"" + Strip(stderr) + "\"."
  }

  /**
   * `print_kitty_error`: one line naming the failed action, then a second line
   * with kitty's stripped output only when kitty printed something.
   */
  function KittyErrorLines(action: string, stderr: string): (lines: seq<ErrorLine>)
    ensures |lines| == (if |stderr| > 0 then 2 else 1)
    ensures StartsWith(LineText(lines[0]), "Failed to " + action + " in kitty.")
    ensures |stderr| > 0 ==> LineText(lines[1]) == "Output from kitty: \"" + Strip(stderr) + "\"."
  {
    StartsWithAppend("Failed to " + action + " in kitty.", " Did you configure kitty remote control correctly? (See Readme).");
    if |stderr| > 0 then [FailedAction(action), KittyOutput(stderr)] else [FailedAction(action)]
  }

  /**
   * The lines a run prints: the error report for a `CalledProcessError`; for
   * undecodable stderr only the first line, as decoding fails before the second.
   */
  function ReportLines(outcome: RunOutcome, action: string): seq<ErrorLine> {
    match outcome
    case CalledProcessError(err) => KittyErrorLines(action, err)
    case UndecodableError => [FailedAction(action)]
    case _ => []
  }

  /**
   * Whether a kitty command's outcome escapes its `except CalledProcessError`:
   * an `OSError` from `run`, or the `UnicodeDecodeError` from `msg.decode()`.
   */
  predicate Escapes(outcome: RunOutcome) {
    outcome.OSError? || outcome.UndecodableError?
  }

  /** What an operation does to the host: the files after it, the commands and lines it adds, whether it raised. */
  datatype Effect = Effect(files: set<string>, commands: seq<Command>, lines: seq<ErrorLine>, raised: bool)

  /**
   * `change_terminal`: convert the image, send it as the background; only when
   * that succeeds, send the palette chosen from the ORIGINAL path.
   */
  function ChangeTerminalSpec(files: set<string>, env: map<string, string>, table: Thresholds, path: string,
                              home: string, stat: Option<SourceIdentity>, digest: string -> HexDigest,
                              darwin: bool, token: string, converter: RunOutcome, replaceOk: bool,
                              background: RunOutcome, colors: RunOutcome): (e: Effect)
    ensures e.commands == [] <==> !IsPngPath(path) && stat.None?
    ensures |e.commands| <= 3
    ensures e.raised <==> (!IsPngPath(path) && stat.None?) || Escapes(background)
                          || (background.Completed? && Escapes(colors))
  {
    match ConvertSpec(files, path, home, stat, digest, darwin, token, converter, replaceOk)
    case StatRaised => Effect(files, [], [], true)
    case Converted(c) => ThemedEffect(c, env, table, path, background, colors)
  }

  /** `change_terminal` once the image is converted: the conversion's commands, then the kitty ones. */
  function ThemedEffect(c: Conversion, env: map<string, string>, table: Thresholds, path: string,
                        background: RunOutcome, colors: RunOutcome): Effect
  {
    var s := ThemeSpec(c.image, env, table, path, background, colors);
    Effect(c.files, Execs(c.runs) + s.commands, s.lines, s.raised)
  }

  /** The kitty commands a run sends, the lines it prints and whether it raised. */
  datatype Sent = Sent(commands: seq<Command>, lines: seq<ErrorLine>, raised: bool)

  /**
   * The kitty part of `change_terminal`: the background image, then, only
   * when kitty accepted it, the palette for the original path.
   */
  function ThemeSpec(image: string, env: map<string, string>, table: Thresholds, path: string,
                     background: RunOutcome, colors: RunOutcome): (s: Sent)
    ensures |s.commands| == (if background.Completed? then 2 else 1) && s.commands[0] == SetBackground(image)
    ensures !background.Completed? ==> s.lines == ReportLines(background, "set background image")
    ensures s.raised <==> Escapes(background) || (background.Completed? && Escapes(colors))
  {
    if !background.Completed? then
      Sent([SetBackground(image)], ReportLines(background, "set background image"), Escapes(background))
    else
      Sent([SetBackground(image), SetColors(PaletteForPath(env, table, path))],
           ReportLines(colors, "set adaptive colors"), Escapes(colors))
  }

  /** `clear`: the background is cleared and the colours reset, each attempted on its own. */
  function ClearSpec(files: set<string>, first: RunOutcome, second: RunOutcome): (e: Effect)
    ensures e.files == files && |e.commands| >= 1 && e.commands[0] == ClearBackground
    ensures |e.commands| == 2 <==> !Escapes(first)
    ensures e.raised <==> Escapes(first) || Escapes(second)
  {
    if Escapes(first) then Effect(files, [ClearBackground], ReportLines(first, "clear background image"), true)
    else
      Effect(files, [ClearBackground, ResetColors],
             ReportLines(first, "clear background image") + ReportLines(second, "reset colors"),
             Escapes(second))
  }

  /** The machine the provider drives. */
  class Host {
    var files: set<string>
    var ran: seq<Command>
    var diagnostics: seq<ErrorLine>

    constructor(existing: set<string>)
      ensures files == existing && ran == [] && diagnostics == []
    {
      files := existing;
      ran := [];
      diagnostics := [];
    }

    /**
     * `run(Argv(cmd), check=True)` inside `try ... except CalledProcessError`:
     * record, report, say whether it raised.  Undecodable stderr is reported
     * by its first line only, and then raises.
     */
    method Run(cmd: Command, outcome: RunOutcome, action: string) returns (raised: bool)
      modifies this`ran, this`diagnostics
      ensures raised == Escapes(outcome)
      ensures unchanged(this`files) && ran == old(ran) + [cmd]
      ensures diagnostics == old(diagnostics) + ReportLines(outcome, action)
    {
      ran := ran + [cmd];
      match outcome {
        case CalledProcessError(err) =>
          diagnostics := diagnostics + KittyErrorLines(action, err);
        case UndecodableError =>
          diagnostics := diagnostics + [FailedAction(action)];
        case _ =>
      }
      raised := Escapes(outcome);
    }

    /** `_convert_to_png`, step by step on the cache directory; `None` when `stat` raises. */
    method ConvertToPng(path: string, home: string, stat: Option<SourceIdentity>, digest: string -> HexDigest,
                        darwin: bool, token: string, converter: RunOutcome, replaceOk: bool)
      returns (image: Option<string>)
      modifies this`files, this`ran
      ensures match ConvertSpec(old(files), path, home, stat, digest, darwin, token, converter, replaceOk)
        case StatRaised => image.None? && files == old(files) && ran == old(ran)
        case Converted(c) => image == Some(c.image) && files == c.files && ran == old(ran) + Execs(c.runs)
      ensures unchanged(this`diagnostics)
    {
      if IsPngPath(path) {
        image := Some(path);
      } else if stat.None? {
        image := None;
      } else {
        var tmp := TempPath(home, token);
        var target := CachedPngPath(home, stat.value, digest);
        var argv := ConverterArgv(darwin, path, tmp);
        assert ConvertSpec(files, path, home, stat, digest, darwin, token, converter, replaceOk)
          == Converted(CachedOrConverted(files, path, target, tmp, argv, converter, replaceOk));
        var converted := CachedOrConvert(path, target, tmp, argv, converter, replaceOk);
        image := Some(converted);
      }
    }

    /** The cached target when it exists, else the temporary file and the `try` block. */
    method CachedOrConvert(src: string, target: string, tmp: string, argv: seq<string>, converter: RunOutcome,
                           replaceOk: bool)
      returns (image: string)
      modifies this`files, this`ran
      ensures var c := CachedOrConverted(old(files), src, target, tmp, argv, converter, replaceOk);
        image == c.image && files == c.files && ran == old(ran) + Execs(c.runs)
    {
      if target in files {
        image := target;
      } else {
        image := TryConvert(src, target, tmp, argv, converter, replaceOk);
      }
    }

    /** The temporary file and the `try` block of `_convert_to_png`. */
    method TryConvert(src: string, target: string, tmp: string, argv: seq<string>, converter: RunOutcome,
                      replaceOk: bool)
      returns (image: string)
      modifies this`files, this`ran
      ensures var c := ConvertAttempt(old(files), src, target, tmp, argv, converter, replaceOk);
        image == c.image && files == c.files && ran == old(ran) + Execs(c.runs)
    {
      files := files + {tmp};
      ran := ran + [Exec(argv)];
      if converter.Completed? && replaceOk {
        files := files - {tmp} + {target};
        return target;
      }
      files := files - {tmp};
      return src;
    }

    /** `KittyProvider.change_terminal`. */
    method ChangeTerminal(env: map<string, string>, table: Thresholds, path: string,
                          home: string, stat: Option<SourceIdentity>, digest: string -> HexDigest,
                          darwin: bool, token: string, converter: RunOutcome, replaceOk: bool,
                          background: RunOutcome, colors: RunOutcome)
      returns (raised: bool)
      modifies this
      ensures var e := ChangeTerminalSpec(old(files), env, table, path, home, stat, digest, darwin, token,
                                          converter, replaceOk, background, colors);
        files == e.files && ran == old(ran) + e.commands
      ensures var e := ChangeTerminalSpec(old(files), env, table, path, home, stat, digest, darwin, token,
                                          converter, replaceOk, background, colors);
        diagnostics == old(diagnostics) + e.lines && raised == e.raised
    {
      ghost var e := ChangeTerminalSpec(files, env, table, path, home, stat, digest, darwin, token,
                                        converter, replaceOk, background, colors);
      ghost var r := ConvertSpec(files, path, home, stat, digest, darwin, token, converter, replaceOk);
      ghost var ran0 := ran;
      ghost var lines0 := diagnostics;
      var image := ConvertToPng(path, home, stat, digest, darwin, token, converter, replaceOk);
      if image.None? {
        assert r.StatRaised? && e == Effect(old(files), [], [], true);
        return true;
      }
      assert r.Converted? && image.value == r.conv.image && files == r.conv.files;
      ghost var ran1 := ran;
      assert ran1 == ran0 + Execs(r.conv.runs);
      raised := ApplyTheme(image.value, env, table, path, background, colors);
      ghost var s := ThemeSpec(r.conv.image, env, table, path, background, colors);
      assert e == Effect(r.conv.files, Execs(r.conv.runs) + s.commands, s.lines, s.raised);
      assert ran == ran1 + s.commands && diagnostics == lines0 + s.lines;
      AppendAssoc(ran0, Execs(r.conv.runs), s.commands);
    }

    /** The two kitty commands of `change_terminal`; the second only after the first succeeded. */
    method ApplyTheme(image: string, env: map<string, string>, table: Thresholds, path: string,
                      background: RunOutcome, colors: RunOutcome)
      returns (raised: bool)
      modifies this`ran, this`diagnostics
      ensures var s := ThemeSpec(image, env, table, path, background, colors);
        unchanged(this`files) && ran == old(ran) + s.commands && diagnostics == old(diagnostics) + s.lines
        && raised == s.raised
    {
      raised := Run(SetBackground(image), background, "set background image");
      if background.Completed? {
        assert diagnostics == old(diagnostics);
        var palette := PaletteForPath(env, table, path);
        raised := Run(SetColors(palette), colors, "set adaptive colors");
        AppendPair(old(ran), SetBackground(image), SetColors(palette));
      }
    }

    /** `KittyProvider.clear`. */
    method Clear(first: RunOutcome, second: RunOutcome) returns (raised: bool)
      modifies this`ran, this`diagnostics
      ensures var e := ClearSpec(old(files), first, second);
        files == e.files && ran == old(ran) + e.commands && diagnostics == old(diagnostics) + e.lines
        && raised == e.raised
    {
      ghost var r1 := ReportLines(first, "clear background image");
      ghost var r2 := ReportLines(second, "reset colors");
      raised := Run(ClearBackground, first, "clear background image");
      if raised {
        assert ClearSpec(old(files), first, second) == Effect(files, [ClearBackground], r1, true);
        return;
      }
      ghost var ran1, lines1 := ran, diagnostics;
      raised := Run(ResetColors, second, "reset colors");
      assert ClearSpec(old(files), first, second)
        == Effect(files, [ClearBackground, ResetColors], r1 + r2, Escapes(second));
      assert ran == old(ran) + [ClearBackground, ResetColors] by {
        assert ran1 == old(ran) + [ClearBackground] && ran == ran1 + [ResetColors];
      }
      assert diagnostics == old(diagnostics) + (r1 + r2) by {
        assert lines1 == old(diagnostics) + r1 && diagnostics == lines1 + r2;
      }
    }
  }

  // ---------------------------------------------------------------------
  // Properties of the provider

  lemma BackgroundIsNotSetColors(image: string)
    ensures !IsSetColors(Argv(SetBackground(image)))
  {
    var cmd := Argv(SetBackground(image));
    assert cmd[2][4] == 'b' && "set-colors"[4] == 'c';
    assert cmd[..3][2] != "set-colors";
  }

  lemma ConverterIsNotSetColors(darwin: bool, src: string, out: string)
    ensures !IsSetColors(ConverterArgv(darwin, src, out))
  {
  }

  /**
   * A background command that kitty rejects ends `change_terminal`: no
   * set-colors command is ever sent, the failure is reported, nothing raises.
   */
  lemma BackgroundFailureSkipsColors(files: set<string>, env: map<string, string>, table: Thresholds,
                                     path: string, home: string, stat: Option<SourceIdentity>,
                                     digest: string -> HexDigest, darwin: bool, token: string,
                                     converter: RunOutcome, replaceOk: bool, err: string, colors: RunOutcome)
    requires ConvertSpec(files, path, home, stat, digest, darwin, token, converter, replaceOk).Converted?
    ensures var e := ChangeTerminalSpec(files, env, table, path, home, stat, digest, darwin, token,
                                        converter, replaceOk, CalledProcessError(err), colors);
      var image := ConvertSpec(files, path, home, stat, digest, darwin, token, converter, replaceOk).conv.image;
      !e.raised && e.lines == KittyErrorLines("set background image", err)
      && |e.commands| > 0 && e.commands[|e.commands| - 1] == SetBackground(image)
      && forall k :: 0 <= k < |e.commands| ==> !IsSetColors(Argv(e.commands[k]))
  {
    RejectedBackgroundEnds(files, env, table, path, home, stat, digest, darwin, token, converter, replaceOk,
                           CalledProcessError(err), colors);
  }


  /**
   * A rejected background whose stderr is not UTF-8 also ends `change_terminal`
   * with no set-colors command, but only the first report line is printed
   * and the decoding error escapes.
   */
  lemma UndecodableBackgroundRaises(files: set<string>, env: map<string, string>, table: Thresholds,
                                    path: string, home: string, stat: Option<SourceIdentity>,
                                    digest: string -> HexDigest, darwin: bool, token: string,
                                    converter: RunOutcome, replaceOk: bool, colors: RunOutcome)
    requires ConvertSpec(files, path, home, stat, digest, darwin, token, converter, replaceOk).Converted?
    ensures var e := ChangeTerminalSpec(files, env, table, path, home, stat, digest, darwin, token,
                                        converter, replaceOk, UndecodableError, colors);
      var image := ConvertSpec(files, path, home, stat, digest, darwin, token, converter, replaceOk).conv.image;
      e.raised && e.lines == [FailedAction("set background image")]
      && |e.commands| > 0 && e.commands[|e.commands| - 1] == SetBackground(image)
      && forall k :: 0 <= k < |e.commands| ==> !IsSetColors(Argv(e.commands[k]))
  {
    RejectedBackgroundEnds(files, env, table, path, home, stat, digest, darwin, token, converter, replaceOk,
                           UndecodableError, colors);
  }

  /** A rejected background is the last command, after the conversion's, and none of them sets colours. */
  lemma RejectedBackgroundEnds(files: set<string>, env: map<string, string>, table: Thresholds,
                               path: string, home: string, stat: Option<SourceIdentity>,
                               digest: string -> HexDigest, darwin: bool, token: string,
                               converter: RunOutcome, replaceOk: bool, background: RunOutcome, colors: RunOutcome)
    requires ConvertSpec(files, path, home, stat, digest, darwin, token, converter, replaceOk).Converted?
    requires !background.Completed?
    ensures var e := ChangeTerminalSpec(files, env, table, path, home, stat, digest, darwin, token,
                                        converter, replaceOk, background, colors);
      var image := ConvertSpec(files, path, home, stat, digest, darwin, token, converter, replaceOk).conv.image;
      e.raised == Escapes(background) && e.lines == ReportLines(background, "set background image")
      && |e.commands| > 0 && e.commands[|e.commands| - 1] == SetBackground(image)
      && forall k :: 0 <= k < |e.commands| ==> !IsSetColors(Argv(e.commands[k]))
  {
    var c := ConvertSpec(files, path, home, stat, digest, darwin, token, converter, replaceOk).conv;
    var e := ChangeTerminalSpec(files, env, table, path, home, stat, digest, darwin, token,
                                converter, replaceOk, background, colors);
    assert e == Effect(c.files, Execs(c.runs) + [SetBackground(c.image)],
                       ReportLines(background, "set background image"), Escapes(background));
    ConversionRunsConverter(files, path, home, stat, digest, darwin, token, converter, replaceOk);
    NoSetColorsAmong(c.runs, c.image, darwin, path, TempPath(home, token));
  }


  /** A rejected background is the only kitty command sent; its failure is reported and nothing raises. */
  lemma RejectedBackgroundSendsOnlyIt(image: string, env: map<string, string>, table: Thresholds, path: string,
                                      err: string, colors: RunOutcome)
    ensures ThemeSpec(image, env, table, path, CalledProcessError(err), colors)
      == Sent([SetBackground(image)], KittyErrorLines("set background image", err), false)
  {
  }

  /** Converter runs followed by a background command hold no set-colors command. */
  lemma NoSetColorsAmong(runs: seq<seq<string>>, image: string, darwin: bool, src: string, out: string)
    requires forall k :: 0 <= k < |runs| ==> runs[k] == ConverterArgv(darwin, src, out)
    ensures var all := Execs(runs) + [SetBackground(image)];
      forall k :: 0 <= k < |all| ==> !IsSetColors(Argv(all[k]))
  {
    var all := Execs(runs) + [SetBackground(image)];
    ConverterIsNotSetColors(darwin, src, out);
    BackgroundIsNotSetColors(image);
    forall k | 0 <= k < |all|
      ensures !IsSetColors(Argv(all[k]))
    {
      if k < |runs| {
        assert all[k] == Exec(runs[k]);
      } else {
        assert all[k] == SetBackground(image);
      }
    }
  }

  /** The only command a conversion runs is the converter itself. */
  lemma ConversionRunsConverter(files: set<string>, path: string, home: string, stat: Option<SourceIdentity>,
                                digest: string -> HexDigest, darwin: bool, token: string,
                                converter: RunOutcome, replaceOk: bool)
    requires ConvertSpec(files, path, home, stat, digest, darwin, token, converter, replaceOk).Converted?
    ensures var runs := ConvertSpec(files, path, home, stat, digest, darwin, token, converter, replaceOk).conv.runs;
      forall k :: 0 <= k < |runs| ==> runs[k] == ConverterArgv(darwin, path, TempPath(home, token))
  {
    if !IsPngPath(path) {
      var tmp := TempPath(home, token);
      CachedOrConvertedRuns(files, path, CachedPngPath(home, stat.value, digest), tmp,
                            ConverterArgv(darwin, path, tmp), converter, replaceOk);
    }
  }

  lemma CachedOrConvertedRuns(files: set<string>, src: string, target: string, tmp: string, argv: seq<string>,
                              converter: RunOutcome, replaceOk: bool)
    ensures var runs := CachedOrConverted(files, src, target, tmp, argv, converter, replaceOk).runs;
      forall k :: 0 <= k < |runs| ==> runs[k] == argv
  {
  }

  /**
   * When the background is accepted, the last command sets the colours of
   * the palette chosen from the original path: the converted image does not
   * influence it.
   */
  lemma ColorsFollowOriginalPath(files: set<string>, env: map<string, string>, table: Thresholds,
                                 path: string, home: string, stat: Option<SourceIdentity>,
                                 digest: string -> HexDigest, darwin: bool, token: string,
                                 converter: RunOutcome, replaceOk: bool, colors: RunOutcome)
    requires ConvertSpec(files, path, home, stat, digest, darwin, token, converter, replaceOk).Converted?
    ensures var e := ChangeTerminalSpec(files, env, table, path, home, stat, digest, darwin, token,
                                        converter, replaceOk, Completed, colors);
      |e.commands| >= 2 && e.commands[|e.commands| - 1] == SetColors(PaletteForPath(env, table, path))
      && e.raised == Escapes(colors)
  {
    ConvertedThenThemed(files, env, table, path, home, stat, digest, darwin, token, converter, replaceOk,
                        Completed, colors);
    AcceptedEndsWithColors(ConvertSpec(files, path, home, stat, digest, darwin, token, converter, replaceOk).conv,
                           env, table, path, colors);
  }

  /** Once the image is converted, `change_terminal` goes on with the kitty commands. */
  lemma ConvertedThenThemed(files: set<string>, env: map<string, string>, table: Thresholds,
                            path: string, home: string, stat: Option<SourceIdentity>,
                            digest: string -> HexDigest, darwin: bool, token: string,
                            converter: RunOutcome, replaceOk: bool, background: RunOutcome, colors: RunOutcome)
    requires ConvertSpec(files, path, home, stat, digest, darwin, token, converter, replaceOk).Converted?
    ensures ChangeTerminalSpec(files, env, table, path, home, stat, digest, darwin, token,
                               converter, replaceOk, background, colors)
      == ThemedEffect(ConvertSpec(files, path, home, stat, digest, darwin, token, converter, replaceOk).conv,
                      env, table, path, background, colors)
  {
  }

  /** After any conversion, an accepted background is followed by the colours of the original path. */
  lemma AcceptedEndsWithColors(c: Conversion, env: map<string, string>, table: Thresholds, path: string,
                               colors: RunOutcome)
    ensures var e := ThemedEffect(c, env, table, path, Completed, colors);
      |e.commands| >= 2 && e.commands[|e.commands| - 1] == SetColors(PaletteForPath(env, table, path))
      && e.raised == Escapes(colors) && e.lines == ReportLines(colors, "set adaptive colors")
  {
    var p := PaletteForPath(env, table, path);
    var s := ThemeSpec(c.image, env, table, path, Completed, colors);
    assert s == Sent([SetBackground(c.image), SetColors(p)], ReportLines(colors, "set adaptive colors"), Escapes(colors));
    assert ThemedEffect(c, env, table, path, Completed, colors) == Effect(c.files, Execs(c.runs) + s.commands, s.lines, s.raised);
    assert (Execs(c.runs) + s.commands)[|c.runs| + 1] == s.commands[1];
  }

  /** The set-colors command carries every palette colour as `key=value`, in palette order, and kitty reads them back. */
  lemma SetColorsArgvParses(p: Palette)
    ensures var cmd := Argv(SetColors(p));
      IsSetColors(cmd) && |cmd| == 3 + |PaletteKeys|
      && forall i :: 0 <= i < |PaletteKeys| ==> ParseColorArg(cmd[3 + i]) == Some(Colors(p)[i])
  {
    ColorArgsRoundTrip(p);
    var cmd := Argv(SetColors(p));
    assert cmd[..3] == ["kitty", "@", "set-colors"];
    assert forall i :: 0 <= i < |PaletteKeys| ==> cmd[3 + i] == ColorArgs(p)[i];
  }

  /** Whether the conversion hit the cache, converted, or fell back, the colours sent are the same. */
  lemma ColorsIndependentOfConversion(files1: set<string>, files2: set<string>, env: map<string, string>,
                                      table: Thresholds, path: string, home: string, stat: Option<SourceIdentity>,
                                      digest: string -> HexDigest, darwin: bool, token1: string, token2: string,
                                      converter1: RunOutcome, converter2: RunOutcome, ok1: bool, ok2: bool,
                                      colors: RunOutcome)
    requires ConvertSpec(files1, path, home, stat, digest, darwin, token1, converter1, ok1).Converted?
    requires ConvertSpec(files2, path, home, stat, digest, darwin, token2, converter2, ok2).Converted?
    ensures var e1 := ChangeTerminalSpec(files1, env, table, path, home, stat, digest, darwin, token1,
                                         converter1, ok1, Completed, colors);
      var e2 := ChangeTerminalSpec(files2, env, table, path, home, stat, digest, darwin, token2,
                                   converter2, ok2, Completed, colors);
      |e1.commands| > 0 && |e2.commands| > 0
      && e1.commands[|e1.commands| - 1] == e2.commands[|e2.commands| - 1]
      && e1.lines == e2.lines
  {
    ConvertedThenThemed(files1, env, table, path, home, stat, digest, darwin, token1, converter1, ok1,
                        Completed, colors);
    ConvertedThenThemed(files2, env, table, path, home, stat, digest, darwin, token2, converter2, ok2,
                        Completed, colors);
    AcceptedEndsWithColors(ConvertSpec(files1, path, home, stat, digest, darwin, token1, converter1, ok1).conv,
                           env, table, path, colors);
    AcceptedEndsWithColors(ConvertSpec(files2, path, home, stat, digest, darwin, token2, converter2, ok2).conv,
                           env, table, path, colors);
  }

  /** A source that cannot be stat'ed raises before any kitty command is sent. */
  lemma StatFailureSendsNothing(files: set<string>, env: map<string, string>, table: Thresholds, path: string,
                                home: string, digest: string -> HexDigest, darwin: bool, token: string,
                                converter: RunOutcome, replaceOk: bool, background: RunOutcome, colors: RunOutcome)
    requires !IsPngPath(path)
    ensures var e := ChangeTerminalSpec(files, env, table, path, home, None, digest, darwin, token,
                                        converter, replaceOk, background, colors);
      e.raised && e.commands == [] && e.lines == [] && e.files == files
  {
  }

  /**
   * `clear` attempts both commands, in order, whatever kitty answers to the
   * first, unless the first escapes; each rejected one is reported.  Stderr
   * that is not UTF-8 ends `clear` after the first report line, with no reset.
   */
  lemma ClearAttemptsBoth(files: set<string>, first: RunOutcome, second: RunOutcome)
    ensures var e := ClearSpec(files, first, second);
      e.files == files
      && (!Escapes(first) ==> e.commands == [ClearBackground, ResetColors])
      && (first.OSError? ==> e.commands == [ClearBackground] && e.lines == [] && e.raised)
      && (first.UndecodableError? ==>
            e.commands == [ClearBackground] && e.lines == [FailedAction("clear background image")] && e.raised)
      && (first.CalledProcessError? ==>
            e.lines == KittyErrorLines("clear background image", first.stderr) + ReportLines(second, "reset colors"))
      && (first.Completed? && second.Completed? ==> e.lines == [] && !e.raised)
  {
  }
}
