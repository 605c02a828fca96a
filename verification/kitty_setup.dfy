/**
 * The setup wizard's logic: reading the VS Code settings (JSON with
 * comments), making kitty the default terminal profile, splicing
 * marker-delimited blocks into kitty.conf and .zshrc, the preview command,
 * the answers to prompts and the saved profile.
 *
 * File contents are values: what a read returns is a parameter and what a
 * write would store is a result.  `json.loads` is the parameter `parse`.
 */
module KittySetup {
  import opened PyText
  import opened JsoncText
  import KittyPalette
  import KittyAdapter

  // ---------------------------------------------------------------------
  // JSON settings

  /** A JSON value; `JNull` is what `json.loads` returns as Python's None. */
  datatype Json =
    | JNull
    | JBool(b: bool)
    | JNumber(n: real)
    | JString(s: string)
    | JArray(items: seq<Json>)
    | JObject(fields: map<string, Json>)

  /** What reading a settings file gives. */
  datatype SettingsFile = Missing | Unreadable | Contents(text: string)

  /**
   * `_read_jsonc_file`: `{}` for a missing or blank file, `None` when the file
   * cannot be read or does not parse, else the parse of the text without
   * comments and trailing commas.
   */
  function ReadJsonc(file: SettingsFile, parse: string -> Option<Json>): (r: Option<Json>)
    ensures file.Missing? ==> r == Some(JObject(map[]))
    ensures file.Unreadable? ==> r.None?
    ensures file.Contents? && Strip(file.text) == "" ==> r == Some(JObject(map[]))
  {
    match file
    case Missing => Some(JObject(map[]))
    case Unreadable => None
    case Contents(text) =>
      var raw := Strip(text);
      if raw == "" then Some(JObject(map[]))
      else parse(WithoutTrailingCommas(StripJsonComments(raw)))
  }

  /**
   * The text `{"a": 1,}` reaches the parser as `{"a": 1}`: it is read as an
   * object, not rejected (tests/test_kitty_setup_script.py expects None).
   */
  lemma TrailingCommaFileParses(parse: string -> Option<Json>)
    ensures ReadJsonc(Contents("{\"a\": 1,}"), parse) == parse("{\"a\": 1}")
  {
    var text := "{\"a\": 1,}";
    assert StripLeft(text) == text;
    assert StripRight(text) == text;
    NoSlashUnchanged(text);
    TrailingCommaDropped();
  }

  const ProfilesKey: string := "terminal.integrated.profiles.osx"
  const DefaultProfileKey: string := "terminal.integrated.defaultProfile.osx"

  /** What `_configure_vscode_default_kitty` ends in. */
  datatype VscodeOutcome =
    | Skipped                               // settings unreadable or unparseable (or JSON null): no write
    | Raised                                // a top-level value that is not an object has no `get`
    | Written(settings: map<string, Json>)  // the settings written back

  /** The object under `key`, or `{}` when there is none or it is not an object. */
  function ObjectAt(m: map<string, Json>, key: string): map<string, Json> {
    if key in m && m[key].JObject? then m[key].fields else map[]
  }

  /** The settings update, on values. */
  function VscodeUpdate(read: Option<Json>): (o: VscodeOutcome)
    ensures o.Skipped? <==> read.None? || read.value.JNull?
    ensures o.Raised? <==> read.Some? && !read.value.JNull? && !read.value.JObject?
    ensures o.Written? ==> DefaultProfileKey in o.settings && o.settings[DefaultProfileKey] == JString("kitty")
  {
    if read.None? || read.value.JNull? then Skipped
    else if !read.value.JObject? then Raised
    else
      var settings := read.value.fields;
      var profiles := ObjectAt(settings, ProfilesKey);
      var kitty := ObjectAt(profiles, "kitty");
      var kitty' := if "path" in kitty then kitty else kitty["path" := JString("kitty")];
      Written(settings[ProfilesKey := JObject(profiles["kitty" := JObject(kitty')])]
                      [DefaultProfileKey := JString("kitty")])
  }

  /** `_configure_vscode_default_kitty`: fetch or create the nested objects, then assign. */
  method ConfigureVscodeDefaultKitty(read: Option<Json>) returns (outcome: VscodeOutcome)
    ensures outcome == VscodeUpdate(read)
  {
    if read.None? || read.value.JNull? {
      return Skipped;
    }
    if !read.value.JObject? {
      return Raised;
    }
    var settings := read.value.fields;
    var profiles: map<string, Json> := map[];
    if ProfilesKey in settings && settings[ProfilesKey].JObject? {
      profiles := settings[ProfilesKey].fields;
    }
    var kittyProfile: map<string, Json> := map[];
    if "kitty" in profiles && profiles["kitty"].JObject? {
      kittyProfile := profiles["kitty"].fields;
    }
    if "path" !in kittyProfile {
      kittyProfile := kittyProfile["path" := JString("kitty")];
    }
    profiles := profiles["kitty" := JObject(kittyProfile)];
    settings := settings[ProfilesKey := JObject(profiles)];
    settings := settings[DefaultProfileKey := JString("kitty")];
    return Written(settings);
  }

  /** The kitty profile's fields, as the update reads them. */
  function KittyProfile(settings: map<string, Json>): map<string, Json> {
    ObjectAt(ObjectAt(settings, ProfilesKey), "kitty")
  }

  /**
   * The update makes kitty the default profile and gives it a path, keeps a
   * path that was there, and leaves every other setting, profile and profile
   * field alone.
   */
  lemma VscodeUpdateEffect(settings: map<string, Json>)
    ensures VscodeUpdate(Some(JObject(settings))).Written?
    ensures var out := VscodeUpdate(Some(JObject(settings))).settings;
      out.Keys == settings.Keys + {ProfilesKey, DefaultProfileKey}
      && out[DefaultProfileKey] == JString("kitty")
      && out[ProfilesKey].JObject?
      && "kitty" in out[ProfilesKey].fields && out[ProfilesKey].fields["kitty"].JObject?
    ensures var out := VscodeUpdate(Some(JObject(settings))).settings;
      forall k :: k in settings && k != ProfilesKey && k != DefaultProfileKey ==> out[k] == settings[k]
    ensures var out := VscodeUpdate(Some(JObject(settings))).settings;
      forall p :: p in ObjectAt(settings, ProfilesKey) && p != "kitty" ==>
        p in ObjectAt(out, ProfilesKey) && ObjectAt(out, ProfilesKey)[p] == ObjectAt(settings, ProfilesKey)[p]
    ensures var kitty := KittyProfile(VscodeUpdate(Some(JObject(settings))).settings);
      var before := KittyProfile(settings);
      "path" in kitty
      && kitty["path"] == (if "path" in before then before["path"] else JString("kitty"))
      && kitty.Keys == before.Keys + {"path"}
      && forall f :: f in before ==> kitty[f] == before[f]
  {
  }

  /** Running the update on its own output changes nothing. */
  lemma VscodeUpdateIdempotent(settings: map<string, Json>)
    ensures var once := VscodeUpdate(Some(JObject(settings)));
      once.Written? && VscodeUpdate(Some(JObject(once.settings))) == once
  {
    var once := VscodeUpdate(Some(JObject(settings))).settings;
    var profiles := ObjectAt(settings, ProfilesKey);
    var kitty := ObjectAt(profiles, "kitty");
    var kitty' := if "path" in kitty then kitty else kitty["path" := JString("kitty")];
    var profiles' := profiles["kitty" := JObject(kitty')];
    assert ObjectAt(once, ProfilesKey) == profiles';
    assert ObjectAt(profiles', "kitty") == kitty';
    assert profiles'["kitty" := JObject(kitty')] == profiles';
    assert once[ProfilesKey := JObject(profiles')] == once;
    assert once[DefaultProfileKey := JString("kitty")] == once;
  }

  /** Unreadable or unparseable settings are never overwritten. */
  lemma UnparseableSettingsSkipped(file: SettingsFile, parse: string -> Option<Json>)
    requires ReadJsonc(file, parse).None?
    ensures VscodeUpdate(ReadJsonc(file, parse)) == Skipped
  {
  }

  // ---------------------------------------------------------------------
  // Marker blocks

  const KittyBlockStart: string := "# >>> pokemon-terminal kitty >>>"
  const KittyBlockEnd: string := "# <<< pokemon-terminal kitty <<<"
  const ZshBlockStart: string := "# >>> pokemon-terminal kitty autoload >>>"
  const ZshBlockEnd: string := "# <<< pokemon-terminal kitty autoload <<<"

  /** The block: the start marker, the lines and the end marker, one per line. */
  function Block(start: string, lines: seq<string>, end: string): (b: string)
    ensures StartsWith(b, start + "\n") && EndsWith(b, "\n" + end + "\n")
  {
    var front := [start] + lines;
    assert [start] + lines + [end] == front + [end];
    JoinLined(front, end);
    assert front[0] == start && front[1..] == lines;
    assert Lined(front) == start + "\n" + Lined(lines);
    StartsWithAppend(start + "\n", Lined(lines) + end + "\n");
    LinedEndsInNewline(front);
    assert (Lined(front) + end + "\n")[|Lined(front) + end + "\n"| - |end| - 2..] == "\n" + end + "\n";
    Join([start] + lines + [end], '\n') + "\n"
  }

  /** The block splits back into its lines when none of them holds a newline. */
  lemma {:induction false} BlockLines(start: string, lines: seq<string>, end: string)
    requires forall l :: l in [start] + lines + [end] ==> forall j :: 0 <= j < |l| ==> l[j] != '\n'
    ensures var b := Block(start, lines, end);
      SplitOn(b[..|b| - 1], '\n') == [start] + lines + [end] && b[|b| - 1] == '\n'
  {
    var parts := [start] + lines + [end];
    var b := Block(start, lines, end);
    forall i | 0 <= i < |parts|
      ensures forall j :: 0 <= j < |parts[i]| ==> parts[i][j] != '\n'
    {
      assert parts[i] in parts;
    }
    SplitJoinRoundTrip(parts, '\n');
    assert b[..|b| - 1] == Join(parts, '\n');
  }

  /**
   * The substitution `start.*?end\n?` (dot matching newlines), applied to
   * every match left to right, each match replaced by `block` taken literally.
   * A start marker with no end marker after it is not a match.
   */
  function SubstituteBlocks(s: string, start: string, end: string, block: string): (r: string)
    requires |start| > 0
    ensures FindFrom(s, start, 0).Some? ==> StartsWith(r, s[..FindFrom(s, start, 0).value])
    ensures FindFrom(s, start, 0).None? ==> r == s
    decreases |s|
  {
    match FindFrom(s, start, 0)
    case None => s
    case Some(p) =>
      match FindFrom(s, end, p + |start|)
      case None => s
      case Some(e) =>
        var stop := if e + |end| < |s| && s[e + |end|] == '\n' then e + |end| + 1 else e + |end|;
        s[..p] + block + SubstituteBlocks(s[stop..], start, end, block)
  }

  /** `_replace_or_append_block`, on the file's text (`None` when the file does not exist). */
  method ReplaceOrAppendBlock(existing: Option<string>, start: string, end: string, lines: seq<string>)
    returns (content: string)
    requires |start| > 0
    ensures content == BlockInstalled(existing, start, end, lines)
  {
    content := "";
    if existing.Some? {
      content := existing.value;
    }
    var block := Block(start, lines, end);
    if Contains(content, start) && Contains(content, end) {
      content := SubstituteBlocks(content, start, end, block);
    } else {
      if content != "" && !EndsWith(content, "\n") {
        content := content + "\n";
      }
      content := content + (if content != "" then "\n" else "") + block;
    }
  }

  /** The file's text after the block is installed. */
  function BlockInstalled(existing: Option<string>, start: string, end: string, lines: seq<string>): (r: string)
    requires |start| > 0
    ensures var content := if existing.Some? then existing.value else "";
      !(Contains(content, start) && Contains(content, end)) ==> EndsWith(r, Block(start, lines, end))
  {
    var content := if existing.Some? then existing.value else "";
    var block := Block(start, lines, end);
    if Contains(content, start) && Contains(content, end) then SubstituteBlocks(content, start, end, block)
    else
      var terminated := if content != "" && !EndsWith(content, "\n") then content + "\n" else content;
      terminated + (if terminated != "" then "\n" else "") + block
  }

  /** A missing or empty file receives exactly the block. */
  lemma EmptyFileGetsBlock(existing: Option<string>, start: string, end: string, lines: seq<string>)
    requires |start| > 0
    requires existing.None? || existing.value == ""
    ensures BlockInstalled(existing, start, end, lines) == Block(start, lines, end)
  {
    assert !Contains("", start);
  }

  /**
   * Without both markers the old text is kept, newline-terminated, and the
   * block is appended after one blank line.
   */
  lemma AppendKeepsText(text: string, start: string, end: string, lines: seq<string>)
    requires |start| > 0 && text != ""
    requires !Contains(text, start) || !Contains(text, end)
    ensures var r := BlockInstalled(Some(text), start, end, lines);
      var terminated := if EndsWith(text, "\n") then text else text + "\n";
      r == terminated + "\n" + Block(start, lines, end)
      && StartsWith(r, text)
  {
    var terminated := if EndsWith(text, "\n") then text else text + "\n";
    var r := BlockInstalled(Some(text), start, end, lines);
    assert r == terminated + "\n" + Block(start, lines, end);
    assert r == text + (r[|text|..]);
    StartsWithAppend(text, r[|text|..]);
  }

  /**
   * An end marker only before the start marker: both markers are present, so
   * nothing is appended, yet nothing matches, so the text stays as it was and
   * the block is not installed.
   */
  lemma EndBeforeStartUnchanged(pre: string, mid: string, post: string, start: string, end: string,
                                lines: seq<string>)
    requires |start| > 0 && |end| > 0
    requires !Contains(pre + end + mid, start)
    requires !Contains(post, end)
    requires forall k :: 0 <= k < |start| ==> start[k] != '\n'
    requires forall k :: 0 <= k < |end| ==> end[k] != '\n'
    requires EndsWith(mid, "\n")
    ensures BlockInstalled(Some(pre + end + mid + start + post), start, end, lines)
      == pre + end + mid + start + post
  {
    var a := pre + end + mid;
    var s := a + start + post;
    assert a[|a| - 1] == '\n' by {
      assert a[|a| - 1] == mid[|mid| - 1];
    }
    assert OccursAt(s, end, |pre|) by {
      assert s[|pre|..|pre| + |end|] == end;
    }
    OccursContained(s, end, |pre|);
    OccursAtFront(start, post);
    StartFoundAfter(a, start + post, start);
    AppendAssoc(a, start, post);
    FoundContained(s, start, 0);
    NoOccurrenceAfter(a + start, post, end);
    EndMissingKeeps(s, |a|, start, end, Block(start, lines, end));
    InstalledBySubstitution(s, start, end, lines);
  }

  /** A text holding both markers is rewritten by the substitution alone. */
  lemma InstalledBySubstitution(content: string, start: string, end: string, lines: seq<string>)
    requires |start| > 0 && Contains(content, start) && Contains(content, end)
    ensures BlockInstalled(Some(content), start, end, lines)
      == SubstituteBlocks(content, start, end, Block(start, lines, end))
  {
  }

  /** A first start marker with no end marker after it: the substitution leaves the text as it is. */
  lemma EndMissingKeeps(s: string, p: nat, start: string, end: string, block: string)
    requires |start| > 0
    requires FindFrom(s, start, 0) == Some(p)
    requires FindFrom(s, end, p + |start|).None?
    ensures SubstituteBlocks(s, start, end, block) == s
  {
  }

  /**
   * The first occurrence of `pat` in `a + t` is where `t` begins, when `t`
   * begins with it and `a` lacks it and ends in a newline.
   */
  lemma StartFoundAfter(a: string, t: string, pat: string)
    requires |pat| > 0 && NoNewline(pat)
    requires !Contains(a, pat) && (a == [] || a[|a| - 1] == '\n')
    requires OccursAt(t, pat, 0)
    ensures FindFrom(a + t, pat, 0) == Some(|a|)
  {
    NoEarlierOccurrence(a, pat, t);
    OccursAfterPrefix(a, t, pat, 0);
    FirstOccurrence(a + t, pat, 0, |a|);
  }

  /**
   * When `a` holds no occurrence of `pat`, ends in a newline and `pat` has
   * none, no occurrence of `pat` in `a + b` starts inside `a`.
   */
  lemma NoEarlierOccurrence(a: string, pat: string, b: string)
    requires !Contains(a, pat) && |pat| > 0
    requires forall k :: 0 <= k < |pat| ==> pat[k] != '\n'
    requires a == [] || a[|a| - 1] == '\n'
    ensures forall k :: 0 <= k < |a| ==> !OccursAt(a + b, pat, k)
  {
    var s := a + b;
    forall k | 0 <= k < |a|
      ensures !OccursAt(s, pat, k)
    {
      if k + |pat| <= |a| {
        assert !OccursAt(a, pat, k);
        assert s[k..k + |pat|] == a[k..k + |pat|];
      } else if k + |pat| <= |s| {
        var m := |a| - 1 - k;
        assert s[k..k + |pat|][m] == s[|a| - 1] == '\n';
        assert pat[m] != '\n';
      }
    }
  }

  /** An occurrence of `pat` that starts in `b` is an occurrence in `b`. */
  lemma NoOccurrenceAfter(a: string, b: string, pat: string)
    requires !Contains(b, pat)
    ensures FindFrom(a + b, pat, |a|).None?
  {
    NoneInSuffix(a, b, pat);
    NotFound(a + b, pat, |a|);
  }

  /** No occurrence of `pat` in `a + b` starts inside `b` when `b` lacks it. */
  lemma NoneInSuffix(a: string, b: string, pat: string)
    requires !Contains(b, pat)
    ensures forall k :: |a| <= k ==> !OccursAt(a + b, pat, k)
  {
    forall k | |a| <= k
      ensures !OccursAt(a + b, pat, k)
    {
      if k + |pat| <= |a + b| {
        assert !OccursAt(b, pat, k - |a|);
        SliceOfAppend(a, b, k, k + |pat|);
      }
    }
  }

  predicate NoNewline(s: string) {
    forall j :: 0 <= j < |s| ==> s[j] != '\n'
  }

  /** Each line followed by a newline. */
  function Lined(lines: seq<string>): string {
    if lines == [] then "" else lines[0] + "\n" + Lined(lines[1..])
  }

  lemma {:induction false} JoinLined(lines: seq<string>, last: string)
    ensures Join(lines + [last], '\n') == Lined(lines) + last
  {
    if lines != [] {
      assert (lines + [last])[0] == lines[0];
      assert (lines + [last])[1..] == lines[1..] + [last];
      JoinLined(lines[1..], last);
    }
  }

  /** The block is the start marker, a newline, each line with its newline, the end marker and a newline. */
  lemma BlockShape(start: string, lines: seq<string>, end: string)
    ensures Block(start, lines, end) == start + (Lined([""] + lines) + (end + "\n"))
  {
    var parts := [start] + lines + [end];
    assert parts[0] == start;
    assert parts[1..] == lines + [end];
    JoinLined(lines, end);
    assert ([""] + lines)[1..] == lines;
  }

  /** A newline appended to a text cannot create an occurrence of a pattern without newlines. */
  lemma AppendNewlineAbsent(x: string, pat: string)
    requires |pat| > 0 && NoNewline(pat) && !Contains(x, pat)
    ensures !Contains(x + "\n", pat)
  {
    var s := x + "\n";
    forall k | 0 <= k
      ensures !OccursAt(s, pat, k)
    {
      if k + |pat| <= |x| {
        assert !OccursAt(x, pat, k);
        assert s[k..k + |pat|] == x[k..k + |pat|];
      } else if k + |pat| <= |s| {
        assert s[k..k + |pat|][|x| - k] == s[|x|] == '\n';
      }
    }
  }

  /** Two texts without the pattern, the first ending in a newline, joined still lack it. */
  lemma ConcatAbsent(a: string, b: string, pat: string)
    requires |pat| > 0 && NoNewline(pat)
    requires !Contains(a, pat) && !Contains(b, pat)
    requires a == [] || a[|a| - 1] == '\n'
    ensures !Contains(a + b, pat)
  {
    NoEarlierOccurrence(a, pat, b);
    NoOccurrenceAfter(a, b, pat);
  }

  /** Lines that do not hold the pattern do not hold it once each is ended by a newline. */
  lemma {:induction false} LinedAbsent(lines: seq<string>, pat: string)
    requires |pat| > 0 && NoNewline(pat)
    requires forall i :: 0 <= i < |lines| ==> !Contains(lines[i], pat)
    ensures !Contains(Lined(lines), pat)
  {
    if lines != [] {
      LinedAbsent(lines[1..], pat);
      AppendNewlineAbsent(lines[0], pat);
      ConcatAbsent(lines[0] + "\n", Lined(lines[1..]), pat);
    }
  }

  /** A pattern that holds a character the text lacks does not occur in it. */
  lemma MissingCharAbsent(s: string, pat: string, i: nat)
    requires i < |pat| && forall j :: 0 <= j < |s| ==> s[j] != pat[i]
    ensures !Contains(s, pat)
  {
    forall k | 0 <= k
      ensures !OccursAt(s, pat, k)
    {
      if k + |pat| <= |s| {
        assert s[k..k + |pat|][i] == s[k + i];
      }
    }
  }

  /** In a text `a` without the start marker, followed by a block, the start marker is found where the block begins. */
  lemma BlockStartFound(a: string, start: string, lines: seq<string>, end: string)
    requires |start| > 0 && NoNewline(start)
    requires !Contains(a, start) && (a == [] || a[|a| - 1] == '\n')
    ensures FindFrom(a + Block(start, lines, end), start, 0) == Some(|a|)
  {
    var rest := Lined([""] + lines) + (end + "\n");
    var s := a + (start + rest);
    assert a + Block(start, lines, end) == s by {
      BlockShape(start, lines, end);
    }
    assert forall k :: 0 <= k < |a| ==> !OccursAt(s, start, k) by {
      NoEarlierOccurrence(a, start, start + rest);
    }
    assert OccursAt(s, start, |a|) by {
      SliceOfAppend(a, start + rest, |a|, |a| + |start|);
      assert (start + rest)[0..|start|] == start;
    }
    FirstOccurrence(s, start, 0, |a|);
  }

  /**
   * After the block's start marker, the first end marker is the block's own
   * when no line holds it; a newline follows it.
   */
  lemma BlockEndFound(a: string, start: string, lines: seq<string>, end: string)
    requires |end| > 0 && NoNewline(end)
    requires forall i :: 0 <= i < |lines| ==> !Contains(lines[i], end)
    ensures var s := a + Block(start, lines, end);
      |s| > |end| && FindFrom(s, end, |a| + |start|) == Some(|s| - |end| - 1) && s[|s| - 1] == '\n'
  {
    LinesWithBlankAbsent(lines, end);
    BlockEndAfterLines(a, start, lines, end);
  }

  /** `BlockEndFound`, once the lines are known not to hold the end marker even joined. */
  lemma BlockEndAfterLines(a: string, start: string, lines: seq<string>, end: string)
    requires |end| > 0 && NoNewline(end)
    requires !Contains(Lined([""] + lines), end)
    ensures var s := a + Block(start, lines, end);
      |s| > |end| && FindFrom(s, end, |a| + |start|) == Some(|s| - |end| - 1) && s[|s| - 1] == '\n'
  {
    BlockShape(start, lines, end);
    LinedEndsInNewline([""] + lines);
    EndMarkerAfter(a, Block(start, lines, end), start, Lined([""] + lines), end);
  }

  /** `BlockEndAfterLines` for any text `b` shaped as a block. */
  lemma EndMarkerAfter(a: string, b: string, start: string, w: string, end: string)
    requires |end| > 0 && NoNewline(end)
    requires !Contains(w, end) && (w == [] || w[|w| - 1] == '\n')
    requires b == start + (w + (end + "\n"))
    ensures var s := a + b;
      |s| > |end| && FindFrom(s, end, |a| + |start|) == Some(|s| - |end| - 1) && s[|s| - 1] == '\n'
  {
    AppendAssoc(a, start, w + (end + "\n"));
    EndMarkerLast(a + b, a + start, w, end, |a| + |start|);
  }

  /** The end marker and newline closing `s == u + w + end + "\n"` is the first one after `u`. */
  lemma EndMarkerLast(s: string, u: string, w: string, end: string, from: nat)
    requires |end| > 0 && NoNewline(end)
    requires !Contains(w, end) && (w == [] || w[|w| - 1] == '\n')
    requires s == u + (w + (end + "\n")) && from == |u|
    ensures |s| > |end| && FindFrom(s, end, from) == Some(|s| - |end| - 1) && s[|s| - 1] == '\n'
  {
    OccursAtFront(end, "\n");
    EndFoundAfter(u, w, end + "\n", end);
  }

  /**
   * In `u + w + t`, with no occurrence of `pat` in `w`, `w` ending in a
   * newline and `t` starting with `pat`, the first occurrence after `u` is
   * where `t` begins.
   */
  lemma EndFoundAfter(u: string, w: string, t: string, pat: string)
    requires |pat| > 0 && NoNewline(pat)
    requires !Contains(w, pat) && (w == [] || w[|w| - 1] == '\n')
    requires OccursAt(t, pat, 0)
    ensures FindFrom(u + (w + t), pat, |u|) == Some(|u| + |w|)
  {
    NoneInMiddle(u, w, t, pat);
    OccursAtTail(u, w, t, pat);
    FirstAtTail(u, w, t, pat);
  }

  /** The search from `|u|` stops where `t` begins when the pattern occurs there and not before. */
  lemma FirstAtTail(u: string, w: string, t: string, pat: string)
    requires forall k :: |u| <= k < |u| + |w| ==> !OccursAt(u + (w + t), pat, k)
    requires OccursAt(u + (w + t), pat, |u| + |w|)
    ensures FindFrom(u + (w + t), pat, |u|) == Some(|u| + |w|)
  {
    FirstOccurrence(u + (w + t), pat, |u|, |u| + |w|);
  }

  /** No occurrence starts inside `w`, in `u + w + t`, when `w` lacks the pattern and ends in a newline. */
  lemma NoneInMiddle(u: string, w: string, t: string, pat: string)
    requires |pat| > 0 && NoNewline(pat)
    requires !Contains(w, pat) && (w == [] || w[|w| - 1] == '\n')
    ensures forall k :: |u| <= k < |u| + |w| ==> !OccursAt(u + (w + t), pat, k)
  {
    NoEarlierOccurrence(w, pat, t);
    ShiftAbsent(u, w + t, pat, |w|);
  }

  /** A pattern that starts `t` occurs in `u + w + t` where `t` begins. */
  lemma OccursAtTail(u: string, w: string, t: string, pat: string)
    requires OccursAt(t, pat, 0)
    ensures OccursAt(u + (w + t), pat, |u| + |w|)
  {
    OccursAfterPrefix(w, t, pat, 0);
    OccursAfterPrefix(u, w + t, pat, |w|);
  }

  /** No occurrence in the first `n` positions of `t` means none in `u + t` between `|u|` and `|u| + n`. */
  lemma ShiftAbsent(u: string, t: string, pat: string, n: nat)
    requires forall k :: 0 <= k < n ==> !OccursAt(t, pat, k)
    ensures forall k :: |u| <= k < |u| + n ==> !OccursAt(u + t, pat, k)
  {
    forall k | |u| <= k < |u| + n
      ensures !OccursAt(u + t, pat, k)
    {
      assert !OccursAt(t, pat, k - |u|);
      if k + |pat| <= |u + t| {
        SliceOfAppend(u, t, k, k + |pat|);
      }
    }
  }

  lemma LinesWithBlankAbsent(lines: seq<string>, pat: string)
    requires |pat| > 0 && NoNewline(pat)
    requires forall i :: 0 <= i < |lines| ==> !Contains(lines[i], pat)
    ensures !Contains(Lined([""] + lines), pat)
  {
    var all := [""] + lines;
    forall i | 0 <= i < |all|
      ensures !Contains(all[i], pat)
    {
      if i > 0 {
        assert all[i] == lines[i - 1];
      }
    }
    LinedAbsent(all, pat);
  }

  /** A text holding exactly one match, running to its end, is the text before it and the block. */
  lemma SubstituteOnce(s: string, p: nat, start: string, end: string, block: string)
    requires |start| > 0 && |end| > 0 && p <= |s|
    requires FindFrom(s, start, 0) == Some(p)
    requires |s| > |end| && FindFrom(s, end, p + |start|) == Some(|s| - |end| - 1) && s[|s| - 1] == '\n'
    ensures SubstituteBlocks(s, start, end, block) == s[..p] + block
  {
    assert s[|s|..] == [];
    assert SubstituteBlocks([], start, end, block) == [];
  }

  lemma LinedEndsInNewline(lines: seq<string>)
    requires lines != []
    ensures |Lined(lines)| > 0 && Lined(lines)[|Lined(lines)| - 1] == '\n'
  {
  }

  /** The text before the block when the block is appended: the old text, newline-terminated, and a blank line. */
  function AppendPrefix(content: string): string {
    var terminated := if content != "" && !EndsWith(content, "\n") then content + "\n" else content;
    terminated + (if terminated != "" then "\n" else "")
  }

  lemma AppendPrefixAbsent(content: string, pat: string)
    requires |pat| > 0 && NoNewline(pat) && !Contains(content, pat)
    ensures !Contains(AppendPrefix(content), pat)
    ensures var a := AppendPrefix(content); a == [] || a[|a| - 1] == '\n'
  {
    if content != "" {
      var terminated := if !EndsWith(content, "\n") then content + "\n" else content;
      if !EndsWith(content, "\n") {
        AppendNewlineAbsent(content, pat);
      }
      AppendNewlineAbsent(terminated, pat);
    }
  }

  /**
   * Installing a block into a text without its start marker, then installing
   * it again with other lines, replaces the first block in place: the result
   * is what a single installation of the second lines gives.  In particular
   * running the setup twice leaves one block.
   */
  lemma {:induction false} ReinstallReplaces(existing: Option<string>, start: string, end: string,
                                             lines1: seq<string>, lines2: seq<string>)
    requires |start| > 0 && |end| > 0 && NoNewline(start) && NoNewline(end)
    requires existing.None? || !Contains(existing.value, start)
    requires forall i :: 0 <= i < |lines1| ==> !Contains(lines1[i], end)
    ensures BlockInstalled(Some(BlockInstalled(existing, start, end, lines1)), start, end, lines2)
      == BlockInstalled(existing, start, end, lines2)
  {
    var content := if existing.Some? then existing.value else "";
    var a := AppendPrefix(content);
    AppendPrefixAbsent(content, start);
    var block2 := Block(start, lines2, end);
    var s := a + Block(start, lines1, end);
    assert !Contains(content, start);
    assert BlockInstalled(existing, start, end, lines1) == s;
    assert BlockInstalled(existing, start, end, lines2) == a + block2;
    LinesWithBlankAbsent(lines1, end);
    BlockMarkersPresent(a, start, lines1, end);
    BlockReplacedAfter(a, start, lines1, end, block2);
  }

  /** A text made of a prefix without the start marker and a block holds both markers. */
  lemma BlockMarkersPresent(a: string, start: string, lines: seq<string>, end: string)
    requires |start| > 0 && |end| > 0 && NoNewline(start) && NoNewline(end)
    requires !Contains(a, start) && (a == [] || a[|a| - 1] == '\n')
    requires !Contains(Lined([""] + lines), end)
    ensures var s := a + Block(start, lines, end);
      Contains(s, start) && Contains(s, end)
  {
    var s := a + Block(start, lines, end);
    BlockStartFound(a, start, lines, end);
    BlockEndAfterLines(a, start, lines, end);
    FoundContained(s, end, |a| + |start|);
  }

  /** In a text made of a prefix without the start marker and a block, the substitution replaces exactly that block. */
  lemma BlockReplacedAfter(a: string, start: string, lines: seq<string>, end: string, block: string)
    requires |start| > 0 && |end| > 0 && NoNewline(start) && NoNewline(end)
    requires !Contains(a, start) && (a == [] || a[|a| - 1] == '\n')
    requires !Contains(Lined([""] + lines), end)
    ensures SubstituteBlocks(a + Block(start, lines, end), start, end, block) == a + block
  {
    BlockStartFound(a, start, lines, end);
    BlockEndAfterLines(a, start, lines, end);
    ReplacedAtMarkers(a, start, lines, end, block);
  }

  /** Once both markers are found where the block puts them, the substitution keeps the prefix and swaps the block. */
  lemma ReplacedAtMarkers(a: string, start: string, lines: seq<string>, end: string, block: string)
    requires |start| > 0 && |end| > 0
    requires FindFrom(a + Block(start, lines, end), start, 0) == Some(|a|)
    requires var s := a + Block(start, lines, end);
      |s| > |end| && FindFrom(s, end, |a| + |start|) == Some(|s| - |end| - 1) && s[|s| - 1] == '\n'
    ensures SubstituteBlocks(a + Block(start, lines, end), start, end, block) == a + block
  {
    SubstituteOnce(a + Block(start, lines, end), |a|, start, end, block);
    PrefixOfAppend(a, Block(start, lines, end));
  }

  /**
   * A match that ends a text still ends there when text without the start
   * marker follows: the substitution swaps the match and keeps what follows.
   */
  lemma SubstituteFollowed(x: string, b: string, p: nat, start: string, end: string, block: string)
    requires |start| > 0 && |end| > 0 && p <= |x|
    requires FindFrom(x, start, 0) == Some(p)
    requires |x| > |end| && FindFrom(x, end, p + |start|) == Some(|x| - |end| - 1) && x[|x| - 1] == '\n'
    requires !Contains(b, start)
    ensures SubstituteBlocks(x + b, start, end, block) == x[..p] + block + b
  {
    FindFromExtend(x, b, start, 0);
    FindFromExtend(x, b, end, p + |start|);
    SubstituteThenRest(x, b, p, start, end, block);
    assert (x + b)[..p] == x[..p];
  }

  /** The match is replaced and, the start marker being absent from what follows, the rest is kept. */
  lemma SubstituteThenRest(x: string, b: string, p: nat, start: string, end: string, block: string)
    requires |start| > 0 && |end| > 0 && p <= |x|
    requires |x| > |end| && x[|x| - 1] == '\n'
    requires FindFrom(x + b, start, 0) == Some(p)
    requires FindFrom(x + b, end, p + |start|) == Some(|x| - |end| - 1)
    requires FindFrom(b, start, 0).None?
    ensures SubstituteBlocks(x + b, start, end, block) == (x + b)[..p] + block + b
  {
    assert (x + b)[|x|..] == b;
    assert (x + b)[|x| - 1] == '\n';
    assert SubstituteBlocks(b, start, end, block) == b;
  }

  /** A block between a prefix without the start marker and a text without it is swapped in place; both are kept. */
  lemma BlockReplacedWithin(a: string, start: string, lines: seq<string>, end: string, b: string, block: string)
    requires |start| > 0 && |end| > 0 && NoNewline(start) && NoNewline(end)
    requires !Contains(a, start) && (a == [] || a[|a| - 1] == '\n')
    requires !Contains(Lined([""] + lines), end)
    requires !Contains(b, start)
    ensures SubstituteBlocks(a + Block(start, lines, end) + b, start, end, block) == a + block + b
  {
    BlockStartFound(a, start, lines, end);
    BlockEndAfterLines(a, start, lines, end);
    ReplacedBetween(a, Block(start, lines, end), b, start, end, block);
  }

  /** `BlockReplacedWithin` for any text `t` whose markers are found where a block puts them. */
  lemma ReplacedBetween(a: string, t: string, b: string, start: string, end: string, block: string)
    requires |start| > 0 && |end| > 0
    requires FindFrom(a + t, start, 0) == Some(|a|)
    requires var x := a + t;
      |x| > |end| && FindFrom(x, end, |a| + |start|) == Some(|x| - |end| - 1) && x[|x| - 1] == '\n'
    requires !Contains(b, start)
    ensures SubstituteBlocks(a + t + b, start, end, block) == a + block + b
  {
    SubstituteFollowed(a + t, b, |a|, start, end, block);
    PrefixOfAppend(a, t);
  }

  /**
   * Installing a block into a text that holds one, between a prefix without
   * the start marker and a text without it, replaces that block in place and
   * keeps the text before and after it.
   */
  lemma BlockInstalledInPlace(a: string, start: string, lines1: seq<string>, end: string, b: string,
                              lines2: seq<string>)
    requires |start| > 0 && |end| > 0 && NoNewline(start) && NoNewline(end)
    requires !Contains(a, start) && (a == [] || a[|a| - 1] == '\n')
    requires forall i :: 0 <= i < |lines1| ==> !Contains(lines1[i], end)
    requires !Contains(b, start)
    ensures BlockInstalled(Some(a + Block(start, lines1, end) + b), start, end, lines2)
      == a + Block(start, lines2, end) + b
  {
    var x := a + Block(start, lines1, end);
    LinesWithBlankAbsent(lines1, end);
    BlockMarkersPresent(a, start, lines1, end);
    FindFromExtend(x, b, start, 0);
    FindFromExtend(x, b, end, 0);
    BlockReplacedWithin(a, start, lines1, end, b, Block(start, lines2, end));
  }

  /**
   * Lines added after the block between two runs survive the second run: the
   * block is rewritten in place and the added text is kept after it.
   */
  lemma ReinstallKeepsFollowingText(existing: Option<string>, start: string, end: string,
                                    lines1: seq<string>, lines2: seq<string>, b: string)
    requires |start| > 0 && |end| > 0 && NoNewline(start) && NoNewline(end)
    requires existing.None? || !Contains(existing.value, start)
    requires forall i :: 0 <= i < |lines1| ==> !Contains(lines1[i], end)
    requires !Contains(b, start)
    ensures BlockInstalled(Some(BlockInstalled(existing, start, end, lines1) + b), start, end, lines2)
      == BlockInstalled(existing, start, end, lines2) + b
  {
    var content := if existing.Some? then existing.value else "";
    var a := AppendPrefix(content);
    AppendPrefixAbsent(content, start);
    assert !Contains(content, start);
    assert BlockInstalled(existing, start, end, lines1) == a + Block(start, lines1, end);
    assert BlockInstalled(existing, start, end, lines2) == a + Block(start, lines2, end);
    BlockInstalledInPlace(a, start, lines1, end, b, lines2);
  }

  /** Changing the remote-control password on a re-run rewrites the one kitty.conf block. */
  lemma PasswordChangeReplacesBlock(existing: Option<string>, oldPassword: string, newPassword: string)
    requires existing.None? || !Contains(existing.value, KittyBlockStart)
    requires Lacks(oldPassword, '#')
    ensures var once := BlockInstalled(existing, KittyBlockStart, KittyBlockEnd, RemoteControlLines(oldPassword));
      BlockInstalled(Some(once), KittyBlockStart, KittyBlockEnd, RemoteControlLines(newPassword))
      == BlockInstalled(existing, KittyBlockStart, KittyBlockEnd, RemoteControlLines(newPassword))
  {
    var lines := RemoteControlLines(oldPassword);
    MissingCharAbsent(lines[0], KittyBlockEnd, 0);
    RemoteLineLacksHash(oldPassword);
    MissingCharAbsent(lines[1], KittyBlockEnd, 0);
    ReinstallReplaces(existing, KittyBlockStart, KittyBlockEnd, lines, RemoteControlLines(newPassword));
  }

  lemma RemoteLineLacksHash(password: string)
    requires Lacks(password, '#')
    ensures Lacks(RemoteControlLines(password)[1], '#')
  {
    var head := "remote_control_password ";
    var quoted := "\"" + password + "\"";
    var tail := " set-background-image set-colors";
    RemoteLineFixedPartsLackHash();
    LacksAppend("\"", password, '#');
    LacksAppend("\"" + password, "\"", '#');
    LacksAppend(head, quoted, '#');
    LacksAppend(head + quoted, tail, '#');
  }

  lemma RemoteLineFixedPartsLackHash()
    ensures Lacks("remote_control_password ", '#') && Lacks("\"", '#')
    ensures Lacks(" set-background-image set-colors", '#')
  {
    var a := "remote_control_password ";
    var b := " set-background-image set-colors";
    forall j | 0 <= j < |a|
      ensures a[j] != '#'
    {
      assert a[j] in {'r', 'e', 'm', 'o', 't', '_', 'c', 'n', 'l', 'p', 'a', 's', 'w', 'd', ' '};
    }
    forall j | 0 <= j < |b|
      ensures b[j] != '#'
    {
      assert b[j] in {' ', 's', 'e', 't', '-', 'b', 'a', 'c', 'k', 'g', 'r', 'o', 'u', 'n', 'd', 'i', 'm', 'l'};
    }
  }

  /** `_configure_kitty_remote_control`: remote control allowed with the password, for the two commands used. */
  function RemoteControlLines(password: string): (r: seq<string>)
    ensures |r| == 2 && r[0] == "allow_remote_control password"
    ensures OccursAt(r[1], "\"" + password + "\"", 24) && EndsWith(r[1], " set-background-image set-colors")
  {
    var head := "remote_control_password ";
    var quoted := "\"" + password + "\"";
    var tail := " set-background-image set-colors";
    var line := head + quoted + tail;
    assert |head| == 24 && line[24..24 + |quoted|] == quoted;
    assert line[|line| - |tail|..] == tail;
    ["allow_remote_control password", line]
  }

  // ---------------------------------------------------------------------
  // The zsh hook

  /** `str.replace('"', '\\"')`: every double quote gets a backslash before it. */
  function EscapeDoubleQuotes(s: string): (r: string)
    ensures |r| >= |s|
  {
    if s == [] then ""
    else (if s[0] == '"' then "\\\"" else [s[0]]) + EscapeDoubleQuotes(s[1..])
  }

  /**
   * How the shell reads back the escaped quotes of a double-quoted word: a
   * backslash takes the next character literally.  This is the shell's rule
   * only for a backslash before '"'; other backslashes, `$` and backticks are
   * not modelled, so it describes words that hold none of them.
   */
  function ShellUnescape(s: string): string
    decreases |s|
  {
    if s == [] then ""
    else if s[0] == '\\' && |s| > 1 then [s[1]] + ShellUnescape(s[2..])
    else [s[0]] + ShellUnescape(s[1..])
  }

  /** Every double quote in the escaped text has a backslash right before it. */
  lemma {:induction false} EscapedQuotesArePreceded(s: string)
    ensures var r := EscapeDoubleQuotes(s);
      forall j :: 0 <= j < |r| && r[j] == '"' ==> j > 0 && r[j - 1] == '\\'
    decreases |s|
  {
    if s != [] {
      EscapedQuotesArePreceded(s[1..]);
      EscapeHead(s[1..]);
      var head: string := if s[0] == '"' then "\\\"" else [s[0]];
      var tail := EscapeDoubleQuotes(s[1..]);
      var r := head + tail;
      assert EscapeDoubleQuotes(s) == r;
      forall j | 0 <= j < |r| && r[j] == '"'
        ensures j > 0 && r[j - 1] == '\\'
      {
        if j < |head| {
          assert r[j] == head[j];
        } else {
          assert r[j] == tail[j - |head|];
          if j > |head| {
            assert r[j - 1] == tail[j - |head| - 1];
          }
        }
      }
    }
  }

  /** The escaped text never starts with a double quote. */
  lemma EscapeHead(s: string)
    ensures EscapeDoubleQuotes(s) == [] || EscapeDoubleQuotes(s)[0] != '"'
  {
  }

  predicate Lacks(s: string, c: char) {
    forall j :: 0 <= j < |s| ==> s[j] != c
  }

  lemma LacksAppend(a: string, b: string, c: char)
    requires Lacks(a, c) && Lacks(b, c)
    ensures Lacks(a + b, c)
  {
    forall j | 0 <= j < |a + b|
      ensures (a + b)[j] != c
    {
      if j >= |a| {
        assert (a + b)[j] == b[j - |a|];
      }
    }
  }

  /** Escaping adds only backslashes. */
  lemma {:induction false} EscapeLacks(s: string, c: char)
    requires c != '\\' && Lacks(s, c)
    ensures Lacks(EscapeDoubleQuotes(s), c)
    decreases |s|
  {
    if s != [] {
      EscapeLacks(s[1..], c);
      var head: string := if s[0] == '"' then "\\\"" else [s[0]];
      LacksAppend(head, EscapeDoubleQuotes(s[1..]), c);
    }
  }

  /** For a path without backslashes, the shell reads back exactly the path. */
  lemma {:induction false} EscapeRoundTrip(s: string)
    requires forall j :: 0 <= j < |s| ==> s[j] != '\\'
    ensures ShellUnescape(EscapeDoubleQuotes(s)) == s
    decreases |s|
  {
    if s != [] {
      EscapeRoundTrip(s[1..]);
      var tail := EscapeDoubleQuotes(s[1..]);
      if s[0] == '"' {
        assert EscapeDoubleQuotes(s) == "\\\"" + tail;
        assert ("\\\"" + tail)[2..] == tail;
      } else {
        assert EscapeDoubleQuotes(s) == [s[0]] + tail;
        assert ([s[0]] + tail)[1..] == tail;
      }
      assert s == [s[0]] + s[1..];
    }
  }

  /** `_install_zsh_autoload_hook`: run the autoload script in interactive kitty shells, when both files exist. */
  function ZshHookLines(pythonBin: string, autoloadScript: string): (lines: seq<string>)
    ensures |lines| == 5
  {
    var py := EscapeDoubleQuotes(pythonBin);
    var script := EscapeDoubleQuotes(autoloadScript);
    ["if [[ -n \"$KITTY_WINDOW_ID\" && -o interactive ]]; then",
     "  if [[ -x \"" + py + "\" && -f \"" + script + "\" ]]; then",
     "    \"" + py + "\" \"" + script + "\"",
     "  fi",
     "fi"]
  }

  /**
   * Re-running the hook installation, even for an interpreter or script that
   * moved, rewrites the one .zshrc block.
   */
  lemma HookReinstallReplaces(existing: Option<string>, py1: string, script1: string, py2: string, script2: string)
    requires existing.None? || !Contains(existing.value, ZshBlockStart)
    requires Lacks(py1, '#') && Lacks(script1, '#')
    ensures var once := BlockInstalled(existing, ZshBlockStart, ZshBlockEnd, ZshHookLines(py1, script1));
      BlockInstalled(Some(once), ZshBlockStart, ZshBlockEnd, ZshHookLines(py2, script2))
      == BlockInstalled(existing, ZshBlockStart, ZshBlockEnd, ZshHookLines(py2, script2))
  {
    var lines := ZshHookLines(py1, script1);
    forall i | 0 <= i < |lines|
      ensures !Contains(lines[i], ZshBlockEnd)
    {
      HookLineLacksHash(py1, script1, i);
      MissingCharAbsent(lines[i], ZshBlockEnd, 0);
    }
    ReinstallReplaces(existing, ZshBlockStart, ZshBlockEnd, lines, ZshHookLines(py2, script2));
  }

  /** No line of the hook holds '#' when the two paths do not. */
  lemma HookLineLacksHash(py: string, script: string, i: nat)
    requires Lacks(py, '#') && Lacks(script, '#') && i < 5
    ensures Lacks(ZshHookLines(py, script)[i], '#')
  {
    var p := EscapeDoubleQuotes(py);
    var q := EscapeDoubleQuotes(script);
    EscapeLacks(py, '#');
    EscapeLacks(script, '#');
    if i == 1 {
      LacksAppend("  if [[ -x \"", p, '#');
      LacksAppend("  if [[ -x \"" + p, "\" && -f \"", '#');
      LacksAppend("  if [[ -x \"" + p + "\" && -f \"", q, '#');
      LacksAppend("  if [[ -x \"" + p + "\" && -f \"" + q, "\" ]]; then", '#');
    } else if i == 2 {
      LacksAppend("    \"", p, '#');
      LacksAppend("    \"" + p, "\" \"", '#');
      LacksAppend("    \"" + p + "\" \"", q, '#');
      LacksAppend("    \"" + p + "\" \"" + q, "\"", '#');
    } else {
      FixedHookLinesLackHash();
    }
  }

  lemma FixedHookLinesLackHash()
    ensures Lacks("if [[ -n \"$KITTY_WINDOW_ID\" && -o interactive ]]; then", '#')
    ensures Lacks("  fi", '#') && Lacks("fi", '#')
  {
    HookTestHeadLacksHash();
    HookTestTailLacksHash();
    LacksAppend("if [[ -n \"$KITTY_WINDOW_ID\"", " && -o interactive ]]; then", '#');
    HookTestHalves();
    assert Lacks("  fi", '#');
  }

  lemma HookTestHalves()
    ensures "if [[ -n \"$KITTY_WINDOW_ID\"" + " && -o interactive ]]; then"
      == "if [[ -n \"$KITTY_WINDOW_ID\" && -o interactive ]]; then"
  {
  }

  lemma HookTestHeadLacksHash()
    ensures Lacks("if [[ -n \"$KITTY_WINDOW_ID\"", '#')
  {
    var a := "if [[ -n \"$KITTY_WINDOW_ID\"";
    forall j | 0 <= j < |a|
      ensures a[j] != '#'
    {
      assert a[j] in {'i', 'f', ' ', '[', '-', 'n', '"', '$', 'K', 'I', 'T', 'Y', '_', 'W', 'N', 'D', 'O'};
    }
  }

  lemma HookTestTailLacksHash()
    ensures Lacks(" && -o interactive ]]; then", '#')
  {
    var b := " && -o interactive ]]; then";
    forall j | 0 <= j < |b|
      ensures b[j] != '#'
    {
      assert b[j] in {' ', '&', '-', 'o', 'i', 'n', 't', 'e', 'r', 'a', 'c', 'v', ']', ';', 'h'};
    }
  }

  // ---------------------------------------------------------------------
  // Preview, prompts and the saved profile

  const PasswordVar: string := "KITTY_RC_PASSWORD"

  /** The preview command: a stripped all-digit selector as is, any other as `-n` and its lower case, then `-v`. */
  function PreviewArgv(pokemonBin: string, selector: string): (argv: seq<string>)
    ensures |argv| >= 2 && argv[0] == pokemonBin && argv[|argv| - 1] == "-v"
    ensures Strip(selector) == "" ==> argv == [pokemonBin, "-v"]
    ensures AllDigits(Strip(selector)) ==> argv == [pokemonBin, Strip(selector), "-v"]
    ensures Strip(selector) != "" && !AllDigits(Strip(selector)) ==>
      argv == [pokemonBin, "-n", Lower(Strip(selector)), "-v"]
  {
    var sel := Strip(selector);
    var cmd := [pokemonBin];
    var cmd := if sel == "" then cmd else if AllDigits(sel) then cmd + [sel] else cmd + ["-n", Lower(sel)];
    cmd + ["-v"]
  }

  /** The preview's environment: the text mode always, the password only when non-empty. */
  function PreviewEnv(env: map<string, string>, textMode: string, password: string): (e: map<string, string>)
    ensures KittyPalette.TextModeVar in e && e[KittyPalette.TextModeVar] == textMode
    ensures password != "" ==> PasswordVar in e && e[PasswordVar] == password
    ensures password == "" ==> (PasswordVar in e <==> PasswordVar in env)
    ensures forall k :: k in env && k != KittyPalette.TextModeVar && (k != PasswordVar || password == "") ==> k in e && e[k] == env[k]
  {
    var e := env[KittyPalette.TextModeVar := textMode];
    if password != "" then e[PasswordVar := password] else e
  }

  /** `_run_preview`: nothing outside kitty; otherwise the command and environment of the preview. */
  function RunPreview(env: map<string, string>, pokemonBin: string, selector: string, textMode: string,
                      password: string): (r: Option<(seq<string>, map<string, string>)>)
    ensures r.Some? <==> KittyAdapter.WindowIdVar in env
  {
    if KittyAdapter.WindowIdVar !in env then None
    else Some((PreviewArgv(pokemonBin, selector), PreviewEnv(env, textMode, password)))
  }

  /** `_prompt`: the stripped answer, or the default when it is empty. */
  function Prompt(answer: string, default: string): (r: string)
    ensures Strip(answer) == "" ==> r == default
    ensures Strip(answer) != "" ==> r == Strip(answer)
  {
    var value := Strip(answer);
    if value != "" then value else default
  }

  /** `_prompt_yes_no`: the default on an empty answer, else whether it is "y" or "yes" in any case. */
  function PromptYesNo(answer: string, defaultYes: bool): (r: bool)
    ensures Strip(answer) == "" ==> r == defaultYes
    ensures Strip(answer) != "" ==> (r <==> Lower(Strip(answer)) in {"y", "yes"})
  {
    var value := Lower(Strip(answer));
    if value == "" then defaultYes else value in {"y", "yes"}
  }

  /** The answer is read case-insensitively: "YES", "Yes" and "yes" mean the same. */
  lemma PromptYesNoIgnoresCase(answer: string, defaultYes: bool)
    ensures PromptYesNo(Lower(answer), defaultYes) == PromptYesNo(answer, defaultYes)
  {
    StripLowerCommute(answer);
    LowerIdempotent(Strip(answer));
    StripLowerCommute(Lower(answer));
  }

  /** A saved text mode, lower-cased; anything but "auto", "light" or "dark" becomes "auto". */
  function NormalizeTextMode(saved: string): (mode: string)
    ensures mode in {"auto", "light", "dark"}
    ensures Lower(saved) in {"auto", "light", "dark"} ==> mode == Lower(saved)
  {
    var mode := Lower(saved);
    if mode in {"auto", "light", "dark"} then mode else "auto"
  }

  /** The three mode names are already in lower case. */
  lemma ModeNamesLower()
    ensures Lower("auto") == "auto" && Lower("light") == "light" && Lower("dark") == "dark"
  {
    AutoLower();
    LightLower();
    DarkLower();
  }

  lemma AutoLower()
    ensures Lower("auto") == "auto"
  {
    var s := "auto";
    assert s[0] == 'a' && s[1] == 'u' && s[2] == 't' && s[3] == 'o';
    assert Lower(s)[0] == 'a' && Lower(s)[1] == 'u' && Lower(s)[2] == 't' && Lower(s)[3] == 'o';
  }

  lemma LightLower()
    ensures Lower("light") == "light"
  {
    var s := "light";
    assert s[0] == 'l' && s[1] == 'i' && s[2] == 'g' && s[3] == 'h' && s[4] == 't';
    assert Lower(s)[0] == 'l' && Lower(s)[1] == 'i' && Lower(s)[2] == 'g' && Lower(s)[3] == 'h' && Lower(s)[4] == 't';
  }

  lemma DarkLower()
    ensures Lower("dark") == "dark"
  {
    var s := "dark";
    assert s[0] == 'd' && s[1] == 'a' && s[2] == 'r' && s[3] == 'k';
    assert Lower(s)[0] == 'd' && Lower(s)[1] == 'a' && Lower(s)[2] == 'r' && Lower(s)[3] == 'k';
  }

  lemma NormalizeTextModeIdempotent(saved: string)
    ensures NormalizeTextMode(NormalizeTextMode(saved)) == NormalizeTextMode(saved)
  {
    var m := NormalizeTextMode(saved);
    LowerIdempotent(saved);
    ModeNamesLower();
  }

  /** The keys of the saved profile. */
  const SelectorKey: string := "pokemon_selector"
  const TextModeKey: string := "text_mode"
  const PasswordKey: string := "kitty_rc_password"
  const BinaryKey: string := "pokemon_binary"

  /** The four keys differ (already in their lengths). */
  lemma StateKeysDistinct()
    ensures SelectorKey != TextModeKey && SelectorKey != PasswordKey && SelectorKey != BinaryKey
    ensures TextModeKey != PasswordKey && TextModeKey != BinaryKey && PasswordKey != BinaryKey
  {
    assert |SelectorKey| == 16 && |TextModeKey| == 9 && |PasswordKey| == 17 && |BinaryKey| == 14;
  }

  /** The wizard's starting values from the saved profile: selector, text mode, password. */
  function InitialSettings(existing: map<string, string>): (r: (string, string, string))
    ensures r.1 in {"auto", "light", "dark"}
    ensures SelectorKey !in existing ==> r.0 == "pikachu"
    ensures PasswordKey !in existing ==> r.2 == "missingno"
  {
    var selector := if SelectorKey in existing then existing[SelectorKey] else "pikachu";
    var textMode := NormalizeTextMode(if TextModeKey in existing then existing[TextModeKey] else "auto");
    var password := if PasswordKey in existing then existing[PasswordKey] else "missingno";
    (selector, textMode, password)
  }

  /** `_save_state`: the profile the autoload script reads back. */
  function SaveStatePayload(selector: string, textMode: string, password: string, pokemonBin: string)
    : (m: map<string, string>)
    ensures m.Keys == {SelectorKey, TextModeKey, PasswordKey, BinaryKey}
    ensures m[SelectorKey] == Strip(selector) && m[TextModeKey] == textMode
    ensures m[PasswordKey] == password && m[BinaryKey] == pokemonBin
  {
    StateKeysDistinct();
    Entries4(SelectorKey, Strip(selector), TextModeKey, textMode, PasswordKey, password, BinaryKey, pokemonBin)
  }

  /** A map with four distinct keys and their values. */
  function Entries4(k1: string, v1: string, k2: string, v2: string, k3: string, v3: string, k4: string, v4: string)
    : (m: map<string, string>)
    requires k1 != k2 && k1 != k3 && k1 != k4 && k2 != k3 && k2 != k4 && k3 != k4
    ensures m.Keys == {k1, k2, k3, k4}
    ensures m[k1] == v1 && m[k2] == v2 && m[k3] == v3 && m[k4] == v4
  {
    map[k1 := v1, k2 := v2, k3 := v3, k4 := v4]
  }

  /** A valid mode is its own normal form. */
  lemma NormalModeKept(textMode: string)
    requires textMode in {"auto", "light", "dark"}
    ensures NormalizeTextMode(textMode) == textMode
  {
    ModeNamesLower();
  }

  /** Saving and reopening the wizard restores the selector, text mode and password that were saved. */
  lemma SavedStateReloads(selector: string, textMode: string, password: string, pokemonBin: string)
    requires textMode in {"auto", "light", "dark"}
    ensures InitialSettings(SaveStatePayload(selector, textMode, password, pokemonBin))
      == (Strip(selector), textMode, password)
  {
    NormalModeKept(textMode);
  }
}
