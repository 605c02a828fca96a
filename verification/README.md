# Pokemon-Terminal on kitty: a verified model

This project models the kitty support of Pokemon-Terminal in Dafny. It has three parts:

- **The kitty terminal provider.** It converts a creature image to PNG and keeps the result in a cache keyed by a SHA-1 of the source's identity. It sends the image to kitty as the window background. It then sends a 20-entry palette whose text colour matches the image: the image's brightness score, read from a dataset table by id or by name, decides it, unless the `POKEMON_TERMINAL_KITTY_TEXT_MODE` variable overrides it.
- **The setup wizard.** It reads the VS Code settings, which are JSON with comments and trailing commas, and makes kitty the default terminal profile there. It writes marker-delimited blocks into `kitty.conf` (remote control with a password) and into `.zshrc` (an autoload hook). It previews a creature and saves the chosen profile.
- **The autoload script.** The zsh hook runs it in every interactive kitty shell. It reads the saved profile and launches the `pokemon` command with it.

The modules follow the program's structure:

- `KittyThresholds`: the dataset loader and the lookup.
- `KittyPalette`: the palettes and the text-mode override.
- `KittyCache`: the PNG cache and the conversion.
- `KittyAdapter`: the provider, as a `Host` class whose fields are the cache directory, the commands run and the lines printed.
- `JsoncText`: comment and trailing-comma stripping.
- `KittySetup`: the wizard's logic.
- `KittyAutoload`: the autoload script.
- `PyText`: the Python string operations they rely on, such as `split`, `strip`, `lower`, `isdigit`, `zfill`, `Path.stem` and `str.find`.

Side effects are modelled as values:

- A subprocess's result is a parameter. It either completed, or raised `CalledProcessError` with stderr that decodes as UTF-8 (the decoded text is kept), or raised `CalledProcessError` with stderr that does not decode (`UndecodableError`), or raised `OSError`. The wizard's live preview is the exception: `KittySetup.RunPreview` yields only the command it starts (see "## Left out").
- A file's contents and a `stat` result are parameters too.
- `float()`, `json.loads` and SHA-1 are uninterpreted function parameters.
- The commands the provider runs are recorded as `Command` values, and `Argv` gives each one's command line.
- The lines it prints are recorded as `ErrorLine` values, and `LineText` gives each one's text.

Two behaviours of the code are worth stating on their own:

- When kitty rejects `set-background-image`, the provider reports the failure and returns at once (pokemonterminal/terminal/adapters/kitty.py:155-159), so no `set-colors` command follows. `KittyAdapter.BackgroundFailureSkipsColors` proves it. When kitty's stderr is not valid UTF-8, `msg.decode()` (pokemonterminal/terminal/adapters/kitty.py:62) raises after the first report line and the error escapes `change_terminal`; `KittyAdapter.UndecodableBackgroundRaises` proves that case.
- A test in tests/test_kitty_setup_script.py expects `{"a": 1,}` to make the settings reader return `None`. The code strips that trailing comma first and hands `{"a": 1}` to the parser. The model follows the code, and `KittySetup.TrailingCommaFileParses` proves the code's behaviour.

## Model

| member | source | states |
|---|---|---|
| KittyThresholds.ParseLine | pokemonterminal/terminal/adapters/kitty.py:73-80 | A line is accepted iff it splits into at least two tokens and the second parses as a float. The entry is the lower-cased first token with that score. |
| KittyThresholds.Accepted | pokemonterminal/terminal/adapters/kitty.py:72-80 | At most one entry per line is accepted, and every accepted name is in lower case. |
| KittyThresholds.ParsedLinesAccepted | pokemonterminal/terminal/adapters/kitty.py:72-81 | Every line that parses contributes its entry, wherever it stands among the lines. |
| KittyThresholds.IdTable | pokemonterminal/terminal/adapters/kitty.py:82-83 | The ids 1 to n of the n accepted lines are all keys of the id map. |
| KittyThresholds.NameTable | pokemonterminal/terminal/adapters/kitty.py:81 | Every accepted name is a key of the name map, and the map has no more keys than there are accepted lines. |
| KittyThresholds.NameTableLowerKeys | pokemonterminal/terminal/adapters/kitty.py:76-81 | When every accepted name is in lower case, so is every key of the name map. |
| KittyThresholds.LoadedTable | pokemonterminal/terminal/adapters/kitty.py:66-84 | The name of every line that parses is a key of the loaded name map, and every such key is in lower case. |
| KittyThresholds.LoadDarkThresholds | pokemonterminal/terminal/adapters/kitty.py:66-84 | The loop builds exactly the id map and the name map of the accepted lines. The k-th accepted line's score is stored under the zero-padded id k. |
| KittyThresholds.InferDarkThreshold | pokemonterminal/terminal/adapters/kitty.py:87-94 | The score of an image is either the neutral 0.5 or a score from one of the two tables. |
| KittyThresholds.TablesSnoc | pokemonterminal/terminal/adapters/kitty.py:81-83 | Accepting one more line adds its score under the next id and under its name. |
| KittyThresholds.AcceptedStep | pokemonterminal/terminal/adapters/kitty.py:72-80 | The lines accepted from a longer prefix are the earlier ones plus the new line, if it parses. |
| KittyThresholds.AcceptedAppend | pokemonterminal/terminal/adapters/kitty.py:72-80 | Lines are accepted independently of each other, so acceptance distributes over concatenation. |
| KittyThresholds.MalformedLineConsumesNoId | pokemonterminal/terminal/adapters/kitty.py:73-80 | A line with fewer than two tokens, or with an unparsable score, changes neither map and does not shift any later id. |
| KittyThresholds.IdKeyInjective | pokemonterminal/terminal/adapters/kitty.py:82 | Different counters give different three-digit keys. |
| KittyThresholds.IdTableLookup | pokemonterminal/terminal/adapters/kitty.py:82-83 | No later line overwrites the k-th accepted line's score in the id map. |
| KittyThresholds.IdTableKeys | pokemonterminal/terminal/adapters/kitty.py:82-83 | The id map has no keys other than the ids 1 to n of the accepted lines. |
| KittyThresholds.NameTableLookup | pokemonterminal/terminal/adapters/kitty.py:76-81 | A name is in the name map iff some accepted line has it. Its score is that of the last such line. |
| KittyThresholds.NameTableKeys | pokemonterminal/terminal/adapters/kitty.py:76-81 | A name is a key of the name map iff some accepted line has it. |
| KittyThresholds.NameTableLast | pokemonterminal/terminal/adapters/kitty.py:76-81 | The score stored for a name is that of the last accepted line with the name. |
| KittyThresholds.LookupMissIsNeutral | pokemonterminal/terminal/adapters/kitty.py:91-94 | A key missing from the map that the stem selects yields 0.5. |
| KittyThresholds.InferByName | pokemonterminal/terminal/adapters/kitty.py:92-94 | A stem that is not all digits is looked up in the name map, under the text before its first hyphen. |
| KittyThresholds.LookupReadsOneMap | pokemonterminal/terminal/adapters/kitty.py:89-94 | An all-digit stem reads only the id map, and any other stem reads only the name map. |
| KittyThresholds.DigitStringsEqual | pokemonterminal/terminal/adapters/kitty.py:91 | Two digit strings of equal length that denote the same number are equal. |
| KittyThresholds.PaddedStemIsIdKey | pokemonterminal/terminal/adapters/kitty.py:82-91 | A stem of up to three digits that denotes k is padded to exactly the key the loader gave line k. |
| KittyThresholds.PaddedDigits | pokemonterminal/terminal/adapters/kitty.py:82-91 | Zero-padding a digit string keeps it a digit string that denotes the same number. |
| KittyThresholds.ShortNumeral | pokemonterminal/terminal/adapters/kitty.py:82-91 | A numeral of at most three digits denotes a number written back in at most three digits. |
| KittyThresholds.LoadedIdLookup | pokemonterminal/terminal/adapters/kitty.py:66-91 | An image named "25.png" or "025.png" gets the score of the 25th accepted dataset line. |
| KittyThresholds.HyphenPrefixKey | pokemonterminal/terminal/adapters/kitty.py:92-93 | The text before the first hyphen of "name-variant" is the name. |
| KittyThresholds.NoHyphenKey | pokemonterminal/terminal/adapters/kitty.py:92-94 | A stem without a hyphen is its own key. |
| KittyThresholds.LoadedNameLookup | pokemonterminal/terminal/adapters/kitty.py:66-94 | An image named after a creature gets the score of the last accepted line with that name. |
| KittyThresholds.VariantStemLooksUpName | pokemonterminal/terminal/adapters/kitty.py:89-94 | A "-variant" suffix sends the lookup to the name map under the part before the hyphen. This holds even when that part is all digits. |
| KittyThresholds.VariantHasNoSlash | pokemonterminal/terminal/adapters/kitty.py:89 | A file name built from slash-free parts has no slash, so it is its own base name. |
| KittyThresholds.VariantStemKey | pokemonterminal/terminal/adapters/kitty.py:90-93 | A hyphenated stem is never all digits, and its key is the lower-cased part before the hyphen. |
| KittyThresholds.LowerAppend | pokemonterminal/terminal/adapters/kitty.py:76 | Lower-casing distributes over concatenation. |
| KittyPalette.Colors | pokemonterminal/terminal/adapters/kitty.py:11-55 | Each palette has exactly the twenty keys in their order, and every value is a `#rrggbb` colour. |
| KittyPalette.Value | pokemonterminal/terminal/adapters/kitty.py:11-55 | A palette has a value for a key iff the key is one of the palette keys, and that value is a colour. |
| KittyPalette.IndexOfKey | pokemonterminal/terminal/adapters/kitty.py:11-55 | The index found is the first entry with the key, or the end of the list when no entry has it. |
| KittyPalette.ColorArgs | pokemonterminal/terminal/adapters/kitty.py:162 | There is one `key=value` argument per palette entry. |
| KittyPalette.PaletteForThreshold | pokemonterminal/terminal/adapters/kitty.py:97-99 | The light-background palette is chosen iff the score is at least 0.65. |
| KittyPalette.PaletteForPath | pokemonterminal/terminal/adapters/kitty.py:102-109 | A "light" mode (any case) gives the dark-background palette, and "dark" gives the light one. Any other or unset mode follows the image's score. |
| KittyPalette.ValuesAreColors | pokemonterminal/terminal/adapters/kitty.py:11-55 | Both value tables have twenty entries, and each entry is a valid colour. |
| KittyPalette.ColorArgsRoundTrip | pokemonterminal/terminal/adapters/kitty.py:162-164 | Each argument sent to kitty splits at its first '=' back into exactly its key and value. |
| KittyPalette.KeyHasNoEquals | pokemonterminal/terminal/adapters/kitty.py:11-55 | No palette key contains '='. |
| KittyPalette.ColorArgSplit | pokemonterminal/terminal/adapters/kitty.py:162 | `key=value` with an '='-free key parses back into the pair. |
| KittyPalette.KeysDistinct | pokemonterminal/terminal/adapters/kitty.py:11-55 | The palette keys are pairwise distinct. |
| KittyPalette.TextContrastsBackground | pokemonterminal/terminal/adapters/kitty.py:11-55 | In the palette for bright images every foreground channel is below 128. In the palette for dark images every channel is at least 128. |
| KittyPalette.PaletteMonotone | pokemonterminal/terminal/adapters/kitty.py:97-99 | A brighter image never gets a lighter text than a dimmer one. |
| KittyPalette.NeutralGetsLightText | pokemonterminal/terminal/adapters/kitty.py:91-99 | An unknown image, with score 0.5, gets the dark-background palette. |
| KittyPalette.AutoModeFollowsScore | pokemonterminal/terminal/adapters/kitty.py:102-109 | Without a "light" or "dark" override, the palette is the threshold choice on the inferred score. |
| KittyPalette.OverrideIgnoresCase | pokemonterminal/terminal/adapters/kitty.py:103-107 | An override in any letter case forces the same palette for every image as its lower-case form. |
| KittyPalette.UnsetIsAuto | pokemonterminal/terminal/adapters/kitty.py:103 | An unset text-mode variable behaves exactly like "auto". |
| KittyCache.CacheKey | pokemonterminal/terminal/adapters/kitty.py:117 | The key ends with the source size in decimal, after the last ':' of the key. |
| KittyCache.CachedPngPath | pokemonterminal/terminal/adapters/kitty.py:112-119 | The cached file name ends in ".png" and is 45 characters longer than the cache directory: a slash, the 40-digit digest and the suffix. |
| KittyCache.TempPath | pokemonterminal/terminal/adapters/kitty.py:131-134 | The temporary file is a "tmp" file in the cache directory with the ".png" suffix. |
| KittyCache.PngPathEnding | pokemonterminal/terminal/adapters/kitty.py:124 | A path that passes the ".png" test ends, after lower-casing, in ".png". |
| KittyCache.SourceIsNotTarget | pokemonterminal/terminal/adapters/kitty.py:124-129 | A source that fails the ".png" test is never its own cached target. |
| KittyCache.ConvertSpec | pokemonterminal/terminal/adapters/kitty.py:122-146 | `stat` raises iff the source is not a ".png" file and cannot be stat'ed. At most one command runs. An image other than the source is the cached target of the source. |
| KittyCache.CachedOrConverted | pokemonterminal/terminal/adapters/kitty.py:127-146 | An existing target is returned with nothing run or changed. Otherwise the converter runs once. The image is the source or the target, and no file but the image is added. |
| KittyCache.ConvertAttempt | pokemonterminal/terminal/adapters/kitty.py:131-146 | The converter runs once. The image is the source, or the target when it then exists. The temporary file does not survive, and no other file changes. |
| KittyCache.CachedPngPathShape | pokemonterminal/terminal/adapters/kitty.py:112-119 | The cached file lives in `~/.cache/pokemon-terminal/kitty-images`, is named by the digest of the source's key, and has a ".png" suffix. |
| KittyCache.ConverterArgv | pokemonterminal/terminal/adapters/kitty.py:137-141 | The converter is `sips` on macOS and `magick` elsewhere. It reads the source and writes to the output named last. |
| KittyCache.HexHasNoSeparator | pokemonterminal/terminal/adapters/kitty.py:118-119 | A hex digest holds no '/', '.' or 't'. |
| KittyCache.IntDecimalHasNoColon | pokemonterminal/terminal/adapters/kitty.py:117 | The decimal form of an integer holds no ':'. |
| KittyCache.ColonSplit | pokemonterminal/terminal/adapters/kitty.py:117 | The last ':' of `a:b` separates a colon-free `b` from `a`. |
| KittyCache.CacheKeyInjective | pokemonterminal/terminal/adapters/kitty.py:117 | Equal cache keys mean the same resolved path, mtime and size, so a changed source gets a new key. |
| KittyCache.TempBesideTarget | pokemonterminal/terminal/adapters/kitty.py:131-134 | The temporary file is a ".png" file in the cache directory, next to the target. |
| KittyCache.TempIsNotTarget | pokemonterminal/terminal/adapters/kitty.py:131-142 | The temporary file never has the target's name. |
| KittyCache.PngPassesThrough | pokemonterminal/terminal/adapters/kitty.py:124-125 | A source whose suffix is ".png" in any case is returned as the path it was given, with no command run and no file changed. Paths are taken in `Path`'s normal form (see "## Left out"). |
| KittyCache.CacheHitRunsNothing | pokemonterminal/terminal/adapters/kitty.py:127-129 | An existing cached file is returned, with no command run and no file changed. |
| KittyCache.ConversionOutcome | pokemonterminal/terminal/adapters/kitty.py:131-146 | The converter runs exactly once, and the temporary file never survives. On success with a working rename, the target exists and is returned. Otherwise the directory is unchanged and the source is returned. |
| KittyCache.SecondCallHits | pokemonterminal/terminal/adapters/kitty.py:127-143 | After a successful conversion, converting the same unchanged source again is a cache hit. |
| KittyAdapter.IsCompatible | pokemonterminal/terminal/adapters/kitty.py:150-151 | The provider is compatible iff `KITTY_WINDOW_ID` is set, whatever its value. |
| KittyAdapter.KittyErrorLines | pokemonterminal/terminal/adapters/kitty.py:58-62 | For stderr that decodes as UTF-8: the report is one line naming the failed action, then a second line quoting the stripped stderr only when kitty printed something. |
| KittyAdapter.ChangeTerminalSpec | pokemonterminal/terminal/adapters/kitty.py:153-166 | No command is sent iff the source cannot be stat'ed. At most three commands run. It raises iff the `stat` fails, the background command escapes, or the background is accepted and the colours command escapes. A command escapes when it raises `OSError`, or when kitty rejects it with stderr that is not UTF-8. |
| KittyAdapter.ThemeSpec | pokemonterminal/terminal/adapters/kitty.py:155-166 | The background command is sent first, and one more command follows iff kitty accepted it. A rejected background is reported. It raises iff the background command escapes, or the background is accepted and the colours command escapes. |
| KittyAdapter.ClearSpec | pokemonterminal/terminal/adapters/kitty.py:168-176 | No file changes and the clear command goes first. The reset follows iff the first command did not escape, that is, did not raise `OSError` and was not rejected with stderr that is not UTF-8. It raises iff either command escapes. |
| KittyAdapter.Host.constructor | pokemonterminal/terminal/adapters/kitty.py:149 | The host starts with the given files, no commands and no output. |
| KittyAdapter.Host.Run | pokemonterminal/terminal/adapters/kitty.py:155-159 | The command is recorded. A `CalledProcessError` with decodable stderr is reported and swallowed. One with stderr that is not UTF-8 prints only the report's first line and raises. An `OSError` propagates. |
| KittyAdapter.Host.ConvertToPng | pokemonterminal/terminal/adapters/kitty.py:122-146 | The new cache directory, the commands run and the image returned are those of the conversion specification. A failing stat raises and changes nothing. |
| KittyAdapter.Host.CachedOrConvert | pokemonterminal/terminal/adapters/kitty.py:127-146 | An existing target is returned with nothing run or changed; otherwise the host does what the conversion attempt specifies. |
| KittyAdapter.Host.TryConvert | pokemonterminal/terminal/adapters/kitty.py:131-146 | The temporary file is created and removed or renamed, the converter runs once, and the image is the target on success and the source otherwise, as the conversion attempt specifies. |
| KittyAdapter.Host.ChangeTerminal | pokemonterminal/terminal/adapters/kitty.py:153-166 | The files, the commands, the output and the raise are exactly the conversion followed by the kitty commands. |
| KittyAdapter.Host.ApplyTheme | pokemonterminal/terminal/adapters/kitty.py:155-166 | The background is sent. The palette for the original path follows only if kitty accepted the background. |
| KittyAdapter.Host.Clear | pokemonterminal/terminal/adapters/kitty.py:168-176 | Clearing the background and resetting the colours are each attempted, and each failure is reported on its own. |
| KittyAdapter.BackgroundIsNotSetColors | pokemonterminal/terminal/adapters/kitty.py:156 | The background command is not a set-colors command. |
| KittyAdapter.ConverterIsNotSetColors | pokemonterminal/terminal/adapters/kitty.py:137-141 | The converter command is not a set-colors command. |
| KittyAdapter.BackgroundFailureSkipsColors | pokemonterminal/terminal/adapters/kitty.py:153-159 | When kitty rejects the background with decodable stderr, the failure is reported, nothing raises, and no set-colors command is ever sent. |
| KittyAdapter.UndecodableBackgroundRaises | pokemonterminal/terminal/adapters/kitty.py:153-159 | When kitty rejects the background with stderr that is not UTF-8, `msg.decode()` in `print_kitty_error` (pokemonterminal/terminal/adapters/kitty.py:62) fails, so only the first report line is printed, `change_terminal` raises, and no set-colors command is ever sent. |
| KittyAdapter.RejectedBackgroundEnds | pokemonterminal/terminal/adapters/kitty.py:153-159 | For any rejected background, the background is the last command, the report is that of its outcome, it raises iff the outcome escapes, and no command sets colours. |
| KittyAdapter.RejectedBackgroundSendsOnlyIt | pokemonterminal/terminal/adapters/kitty.py:155-159 | A background rejected with decodable stderr is the only kitty command sent; its failure is reported and nothing raises. |
| KittyAdapter.NoSetColorsAmong | pokemonterminal/terminal/adapters/kitty.py:137-159 | Converter runs followed by the background command hold no set-colors command line. |
| KittyAdapter.ConversionRunsConverter | pokemonterminal/terminal/adapters/kitty.py:131-146 | Every command a conversion runs is the converter on the source and the temporary file. |
| KittyAdapter.CachedOrConvertedRuns | pokemonterminal/terminal/adapters/kitty.py:127-146 | Once the target is known, every command run is the converter command. |
| KittyAdapter.ColorsFollowOriginalPath | pokemonterminal/terminal/adapters/kitty.py:153-164 | Once the background is accepted, the last command sets the colours of the palette chosen from the original path, not from the converted image, and it raises iff that command escapes. |
| KittyAdapter.ConvertedThenThemed | pokemonterminal/terminal/adapters/kitty.py:153-166 | Once the image is converted, `change_terminal` goes on with the kitty commands on the converted image. |
| KittyAdapter.AcceptedEndsWithColors | pokemonterminal/terminal/adapters/kitty.py:153-166 | After any conversion, an accepted background is followed by exactly one more command, the colours of the original path, whose failure alone is reported and which raises iff that command escapes. |
| KittyAdapter.SetColorsArgvParses | pokemonterminal/terminal/adapters/kitty.py:161-164 | The set-colors command line starts with `kitty @ set-colors`, has one argument per palette key, and each argument parses back to that palette entry, in order. |
| KittyAdapter.ColorsIndependentOfConversion | pokemonterminal/terminal/adapters/kitty.py:153-164 | A cache hit, a conversion and a fallback all end in the same last command and print the same lines. |
| KittyAdapter.StatFailureSendsNothing | pokemonterminal/terminal/adapters/kitty.py:116-127 | A source that cannot be stat'ed raises before any command is run. |
| KittyAdapter.ClearAttemptsBoth | pokemonterminal/terminal/adapters/kitty.py:168-176 | Unless the first command escapes, both clear commands are sent, whichever of them kitty rejects. An `OSError` from the first sends nothing more and prints nothing. A rejection with stderr that is not UTF-8 prints only the first report line and skips the reset. |
| JsoncText.Tokenize | scripts/kitty_setup.py:45-49 | There are no more tokens than characters, and only the empty text has none. |
| JsoncText.StripJsonComments | scripts/kitty_setup.py:38-49 | Stripping comments never lengthens the text. |
| JsoncText.RenderShrinks | scripts/kitty_setup.py:39-49 | Every token renders to at most its own length, so the rendered text is no longer than the input. |
| JsoncText.QuotedEnd | scripts/kitty_setup.py:46 | A string literal that the pattern matches ends just after its closing quote. |
| JsoncText.NextToken | scripts/kitty_setup.py:45-49 | The next match, or the next single character, is a non-empty prefix of the text. |
| JsoncText.TokenizeRoundTrip | scripts/kitty_setup.py:45-49 | The matches and the text between them cover the text exactly. |
| JsoncText.StripUnfold | scripts/kitty_setup.py:39-49 | Stripping handles the first token, then continues on the rest. |
| JsoncText.LineCommentBecomesSpace | scripts/kitty_setup.py:41-46 | A `//` comment up to the end of its line becomes one space, and the newline is kept. |
| JsoncText.FinalLineCommentBecomesSpace | scripts/kitty_setup.py:41-46 | A `//` comment on the last line becomes one space. |
| JsoncText.BlockCommentBecomesSpace | scripts/kitty_setup.py:41-47 | A closed `/* */` comment becomes one space, even across lines. |
| JsoncText.QuotedEndExtends | scripts/kitty_setup.py:46 | Text appended after a complete literal does not change where it ends. |
| JsoncText.QuotedStringKept | scripts/kitty_setup.py:43-46 | A string literal is kept verbatim, even when it contains `//` or `/*`. |
| JsoncText.QuotedToken | scripts/kitty_setup.py:43-46 | A complete string literal, whatever follows it, is the next match as a whole. |
| JsoncText.NoCommentToken | scripts/kitty_setup.py:41-49 | Text that does not start with '/' does not start with a comment, so its first token is kept as is. |
| JsoncText.NoSlashUnchanged | scripts/kitty_setup.py:38-49 | Text without '/' passes through unchanged. |
| JsoncText.NextNonSpace | scripts/kitty_setup.py:77-79 | The look-ahead stops at the first non-whitespace character, or at the end. |
| JsoncText.Step | scripts/kitty_setup.py:59-74 | Outside strings, a quote opens a string of that quote. Inside, only the unescaped opening quote closes it. A backslash escapes only inside a string and not after another escape. |
| JsoncText.StateBefore | scripts/kitty_setup.py:58-74 | Whenever the scanner is inside a string, the quote it waits for is ' or ". |
| JsoncText.Dropped | scripts/kitty_setup.py:76-81 | A dropped character is a comma with at least one character after it. |
| JsoncText.Kept | scripts/kitty_setup.py:58-85 | The output of the first n characters is at most n characters long. |
| JsoncText.WithoutTrailingCommas | scripts/kitty_setup.py:52-85 | Removing trailing commas never lengthens the text. |
| JsoncText.StripTrailingCommas | scripts/kitty_setup.py:52-85 | The scanner's loop writes exactly the input minus the commas outside strings that are followed, after whitespace, by ']' or '}'. |
| JsoncText.FirstNonSpace | scripts/kitty_setup.py:77-79 | The look-ahead stops at the first non-space at or after its start. |
| JsoncText.OnlyCommasRemoved | scripts/kitty_setup.py:52-85 | Every character other than ',' keeps its count, so the output is the input with some commas removed. |
| JsoncText.NoCommaUnchanged | scripts/kitty_setup.py:52-85 | Text without commas is unchanged. |
| JsoncText.LiteralCopied | scripts/kitty_setup.py:59-68 | The rest of a string literal is copied as is, and the scanner is outside strings afterwards. |
| JsoncText.LiteralScanned | scripts/kitty_setup.py:59-74 | Through a string literal's body the scanner is inside the string; just after the closing quote it is outside. |
| JsoncText.KeptInStrings | scripts/kitty_setup.py:59-68 | Wherever the scanner is inside a string, it copies the text unchanged. |
| JsoncText.CopiedInString | scripts/kitty_setup.py:59-68 | Inside a string, a character is copied. |
| JsoncText.StringLiteralVerbatim | scripts/kitty_setup.py:59-74 | A whole string literal, including commas before '}', is copied verbatim. |
| JsoncText.TrailingCommaDropped | scripts/kitty_setup.py:76-81 | The comma of `{"a": 1,}` is dropped. |
| KittySetup.ReadJsonc | scripts/kitty_setup.py:88-101 | A missing or blank file reads as `{}`, and an unreadable file reads as None. Otherwise the stripped text, without comments and trailing commas, is parsed. |
| KittySetup.TrailingCommaFileParses | scripts/kitty_setup.py:88-101 | A file `{"a": 1,}` is parsed as `{"a": 1}`. |
| KittySetup.VscodeUpdate | scripts/kitty_setup.py:129-147 | Unreadable or null settings are skipped. Settings that are not an object raise. Otherwise the written settings make "kitty" the default profile. |
| KittySetup.ConfigureVscodeDefaultKitty | scripts/kitty_setup.py:129-147 | Fetching or creating the nested objects step by step writes the settings of the update specification. |
| KittySetup.VscodeUpdateEffect | scripts/kitty_setup.py:134-146 | The update always writes. The default profile becomes "kitty" and the kitty profile's path is kept or set to "kitty". Every other setting, profile and kitty field is unchanged. |
| KittySetup.VscodeUpdateIdempotent | scripts/kitty_setup.py:134-146 | Running the update on its own output changes nothing. |
| KittySetup.UnparseableSettingsSkipped | scripts/kitty_setup.py:98-133 | Settings that cannot be read or parsed, or that parse to null, are never overwritten. |
| KittySetup.Block | scripts/kitty_setup.py:116 | The block starts with the start marker and a newline, and ends with a newline, the end marker and a newline. |
| KittySetup.BlockLines | scripts/kitty_setup.py:116 | When no line holds a newline, the block ends in a newline. Without that newline, it splits at newlines back into the start marker, the lines and the end marker. |
| KittySetup.SubstituteBlocks | scripts/kitty_setup.py:117-119 | Text without the start marker is unchanged. Otherwise the text before the first start marker is kept. |
| KittySetup.BlockInstalled | scripts/kitty_setup.py:111-123 | Unless the old text holds both markers, the new text ends with the block. |
| KittySetup.ReplaceOrAppendBlock | scripts/kitty_setup.py:111-123 | The file's new text is the block installed into the old text. |
| KittySetup.EmptyFileGetsBlock | scripts/kitty_setup.py:112-123 | A missing or empty file receives exactly the block. |
| KittySetup.AppendKeepsText | scripts/kitty_setup.py:117-123 | Without both markers, the old text is kept as a prefix. A blank line and the block follow. |
| KittySetup.EndBeforeStartUnchanged | scripts/kitty_setup.py:117-119 | When the end marker occurs only before the start marker, both are present but nothing matches: the file is left unchanged and no block is installed. |
| KittySetup.NoEarlierOccurrence | scripts/kitty_setup.py:117-119 | A pattern absent from `a` cannot start inside `a` in `a + b` when `a` ends in a newline and the pattern has none. |
| KittySetup.NoOccurrenceAfter | scripts/kitty_setup.py:117-119 | A pattern absent from `b` is not found in `a + b` from `|a|` on. |
| KittySetup.JoinLined | scripts/kitty_setup.py:116 | Joining lines with newlines is each line newline-terminated, then the last line. |
| KittySetup.BlockShape | scripts/kitty_setup.py:116 | The block is the start marker, then each line after a newline, then the end marker and a newline. |
| KittySetup.AppendNewlineAbsent | scripts/kitty_setup.py:117-119 | Appending a newline does not create a newline-free pattern. |
| KittySetup.ConcatAbsent | scripts/kitty_setup.py:117-119 | Two texts without the pattern, the first newline-terminated, still lack it when joined. |
| KittySetup.LinedAbsent | scripts/kitty_setup.py:116-119 | Lines without the pattern lack it once newline-terminated. |
| KittySetup.MissingCharAbsent | scripts/kitty_setup.py:117 | A pattern holding a character the text lacks does not occur in it. |
| KittySetup.BlockStartFound | scripts/kitty_setup.py:118-119 | In text without the start marker followed by the block, the match starts where the block does. |
| KittySetup.BlockEndFound | scripts/kitty_setup.py:118-119 | The lazy match ends at the block's own end marker, with the newline after it, when no line holds the end marker. |
| KittySetup.ShiftAbsent | scripts/kitty_setup.py:118-119 | Absence in `t` carries over to `u + t` shifted by `|u|`. |
| KittySetup.LinesWithBlankAbsent | scripts/kitty_setup.py:116-119 | Block lines without the end marker do not hold it once laid out. |
| KittySetup.SubstituteOnce | scripts/kitty_setup.py:118-119 | A text whose only match runs to its end becomes the text before the match plus the new block. |
| KittySetup.AppendPrefixAbsent | scripts/kitty_setup.py:121-123 | The text before an appended block lacks the marker when the old text does, and ends in a newline. |
| KittySetup.ReinstallReplaces | scripts/kitty_setup.py:111-123 | Take a text without the start marker. Installing one block and then another gives the same text as installing only the second. This needs no line of the first block to hold the end marker. |
| KittySetup.InstalledBySubstitution | scripts/kitty_setup.py:116-119 | A text holding both markers is rewritten by the substitution alone. |
| KittySetup.EndMissingKeeps | scripts/kitty_setup.py:117-119 | When no end marker follows the first start marker, the substitution leaves the text as it is. |
| KittySetup.StartFoundAfter | scripts/kitty_setup.py:117-119 | The first start marker of `a + t` is where `t` begins, when `t` begins with it and `a` lacks it and ends in a newline. |
| KittySetup.BlockEndAfterLines | scripts/kitty_setup.py:116-119 | After a block whose lines do not hold the end marker, the lazy search for the end marker stops at the block's own end marker, followed by the final newline. |
| KittySetup.BlockMarkersPresent | scripts/kitty_setup.py:116-117 | A text made of a prefix without the start marker and a block holds both markers. |
| KittySetup.BlockReplacedAfter | scripts/kitty_setup.py:116-119 | The substitution swaps exactly the block that follows a prefix without the start marker, and keeps the prefix. |
| KittySetup.SubstituteFollowed | scripts/kitty_setup.py:117-119 | A match that ends in a newline is replaced by the block. Text after it that holds no start marker is kept as it is. |
| KittySetup.BlockReplacedWithin | scripts/kitty_setup.py:116-119 | A block with text before and after it is swapped for the new block. Both the text before and the text after are kept, given that neither holds the start marker. |
| KittySetup.BlockInstalledInPlace | scripts/kitty_setup.py:111-125 | Take a file holding one block whose lines hold no end marker, with text before and after it that holds no start marker. Re-installing rewrites the block in place: the new text is the old text before it, then the new block, then the old text after it. |
| KittySetup.ReinstallKeepsFollowingText | scripts/kitty_setup.py:111-125 | Take a file that holds an installed block followed by text without the start marker. Installing another block replaces the first one, and the text after it stays where it was. |
| KittySetup.ReplacedAtMarkers | scripts/kitty_setup.py:118-119 | Once both markers are found where the block puts them, the substitution keeps the prefix and swaps the block. |
| KittySetup.RemoteControlLines | scripts/kitty_setup.py:150-160 | Two lines: remote control with a password, then the password in double quotes after `remote_control_password `, for the two commands used. |
| KittySetup.PasswordChangeReplacesBlock | scripts/kitty_setup.py:150-160 | Re-running the wizard with a new password replaces the one kitty.conf block rather than adding a second. |
| KittySetup.EscapeDoubleQuotes | scripts/kitty_setup.py:164-165 | Escaping never shortens the text. |
| KittySetup.EscapedQuotesArePreceded | scripts/kitty_setup.py:164-169 | Every double quote in the escaped text follows a backslash, so none closes the shell word. |
| KittySetup.EscapeHead | scripts/kitty_setup.py:164 | The escaped text never starts with a double quote. |
| KittySetup.EscapeLacks | scripts/kitty_setup.py:164-165 | Escaping adds only backslashes. |
| KittySetup.EscapeRoundTrip | scripts/kitty_setup.py:164-169 | For a path without backslashes, `$` or backticks, the shell reads back exactly the path. |
| KittySetup.ZshHookLines | scripts/kitty_setup.py:163-172 | The hook has five lines. |
| KittySetup.HookReinstallReplaces | scripts/kitty_setup.py:163-173 | Re-installing the hook with other paths replaces the one `.zshrc` block. |
| KittySetup.HookLineLacksHash | scripts/kitty_setup.py:166-172 | No hook line holds '#' when the paths do not. |
| KittySetup.PreviewArgv | scripts/kitty_setup.py:186-193 | The command has the binary first and "-v" last. An empty selector adds nothing, a digit selector is passed stripped, and any other follows "-n" stripped and lower-cased. |
| KittySetup.PreviewEnv | scripts/kitty_setup.py:181-184 | The text mode is always set, and the password only when it is non-empty. Everything else is inherited. |
| KittySetup.RunPreview | scripts/kitty_setup.py:176-194 | A preview runs iff `KITTY_WINDOW_ID` is set. |
| KittySetup.Prompt | scripts/kitty_setup.py:209-211 | The stripped answer is returned, or the default when the answer is blank. |
| KittySetup.PromptYesNo | scripts/kitty_setup.py:214-219 | A blank answer gives the default. Otherwise the answer is yes iff it is "y" or "yes" in any case. |
| KittySetup.PromptYesNoIgnoresCase | scripts/kitty_setup.py:216-219 | Lower-casing the answer changes nothing. |
| KittySetup.NormalizeTextMode | scripts/kitty_setup.py:231-233 | The mode is always "auto", "light" or "dark". A valid mode in any case is kept in lower case. |
| KittySetup.NormalizeTextModeIdempotent | scripts/kitty_setup.py:231-233 | Normalising twice is normalising once. |
| KittySetup.InitialSettings | scripts/kitty_setup.py:229-234 | The wizard starts with a valid text mode, and with "pikachu" and "missingno" where nothing was saved. |
| KittySetup.SaveStatePayload | scripts/kitty_setup.py:197-205 | The saved profile has exactly the four keys, with the stripped selector and the given text mode, password and binary. |
| KittySetup.SavedStateReloads | scripts/kitty_setup.py:197-234 | Reopening the wizard after saving restores the stripped selector, the text mode and the password. |
| KittyAutoload.LoadState | scripts/kitty_autoload.py:13-20 | A profile is returned iff the file exists and reads as JSON, and it is the file's content. |
| KittyAutoload.Get | scripts/kitty_autoload.py:24-25 | A stored key gives its value, and a missing key gives the default. |
| KittyAutoload.BuildCommand | scripts/kitty_autoload.py:23-30 | The saved binary (default "pokemon") comes first. The stripped selector comes last when non-empty, after "-n" exactly when it is not all digits. Letter case is kept. |
| KittyAutoload.SelectorOf | scripts/kitty_autoload.py:26-30 | A command with only the binary asks for no selector. Otherwise the selector is the last argument. |
| KittyAutoload.CommandRoundTrip | scripts/kitty_autoload.py:23-30 | The command gives back the stripped selector, and has two arguments exactly when the selector is a number. |
| KittyAutoload.ChildEnv | scripts/kitty_autoload.py:41-47 | The child gets the lower-cased text mode (default "auto"), and the password only when it is non-empty. Every other variable is inherited and no other key is added. |
| KittyAutoload.Autoload | scripts/kitty_autoload.py:33-54 | A launch happens iff the shell is in kitty and a non-empty profile loads. It uses the built command and environment. The exit code is 1 exactly when starting the launch raises. |
| KittyAutoload.PayloadGets | scripts/kitty_autoload.py:23-47 | The autoload script reads back each value the wizard saved. |
| KittyAutoload.AutoloadReplaysPreview | scripts/kitty_autoload.py:23-47 | For a saved lower-case selector, every new shell runs the previewed command without "-v", in the preview's environment. |
| KittyAutoload.ReplayedCommand | scripts/kitty_autoload.py:23-30 | The replayed command is the preview's command without "-v", when the saved selector is in lower case. |
| KittyAutoload.ReplayedEnv | scripts/kitty_autoload.py:41-47 | The replayed environment is the preview's environment, when the mode is in lower case. |
| KittyAutoload.ChildEnvIsPreviewEnv | scripts/kitty_autoload.py:41-47 | The child's environment is the wizard preview's environment for the saved mode in lower case and the saved password. |
| KittyAutoload.ReplayKeepsCase | scripts/kitty_autoload.py:23-30 | A saved "Pikachu" is replayed as "-n Pikachu" but was previewed as "-n pikachu". |
| KittyAutoload.CapitalisedReplay | scripts/kitty_autoload.py:23-30 | The profile the wizard saves for "Pikachu" is replayed as `pokemon -n Pikachu`. |
| KittyAutoload.CapitalisedPreview | scripts/kitty_setup.py:186-193 | The wizard previews "Pikachu" as `pokemon -n pikachu -v`. |
| KittyAutoload.SavedModeDecidesPalette | scripts/kitty_autoload.py:42-43 | A "light" or "dark" mode saved by the wizard forces the adapter's palette for every image. |
| KittyAutoload.SavedModeCaseIgnored | scripts/kitty_autoload.py:42-43 | A forcing mode saved in any case gives the same palette for every image. |

## Left out

- Real I/O is not modelled: reading and writing files, `print`, `input`, `mkdir`, `chmod`, and the failures of `mkdir` and the temporary-file creation. File contents, `stat` results and subprocess outcomes are parameters. Printed lines are a sequence.
- Whether the autoload child process starts is the parameter `launchRaises`. Its exit status is ignored, as in the script.
- The wizard's interactive menu loop (scripts/kitty_setup.py:245-277) and its `main` printing are left out. Each action the loop calls is modelled: the preview, the text-mode normalisation, saving the profile and installing the hook.
- The `lru_cache` on the dataset loader is not modelled. The loaded table is passed explicitly. Reading the dataset file and locating it through `Path(__file__)` are not modelled either, so the loader takes the file's lines.
- `float()` is an uninterpreted partial function, `json.loads` is an uninterpreted parser, and SHA-1 is an uninterpreted function into 40-digit lower-case hex strings. Their internals, including collisions, are not modelled.
- `Path.resolve()` is not modelled: the resolved source path is part of the `stat` identity parameter.
- Strings are sequences of characters. Lower-casing, `isdigit`, `isspace` and `strip` are their ASCII versions, and Unicode case mapping and Unicode digits are not modelled. Decoding is not modelled either: a settings file that is not valid UTF-8 makes `_read_jsonc_file` raise `UnicodeDecodeError`, which it does not catch (scripts/kitty_setup.py:92-101), and `KittySetup.SettingsFile` has no such case. Kitty's captured stderr is either its decoded text or `UndecodableError`; the bytes of undecodable stderr are not kept, as nothing prints them.
- `_write_json_file`'s serialisation (indentation, key order, the trailing newline) is not modelled. A written settings object is its map.
- The saved profile is modelled as a map from strings to strings, which is what the wizard writes. A hand-edited profile with non-string values, or a top level that is not an object, would reach `str()` conversions or raise `AttributeError`; those cases are not modelled.
- `os.replace` is modelled as succeeding or failing as a whole. Concurrent writers to the cache are not modelled.
- KittySetup.SubstituteBlocks: the replacement block is inserted literally, but `pattern.sub(block, content)` (scripts/kitty_setup.py:119) reads the block as a template. A known escape such as `\n` or `\\` is rewritten. A backslash before an unknown ASCII letter or before a group number such as `\1` raises `re.error`, so the file write at scripts/kitty_setup.py:125 is never reached and nothing is written. Any other backslash is kept. So a password or path holding a backslash can give a different file, or none, in the real code. This applies only when both markers are present; appending (scripts/kitty_setup.py:121-123) is literal.
- KittySetup.RunPreview: `subprocess.run` at scripts/kitty_setup.py:194 can raise `OSError`, for instance when the `pokemon` binary is missing. Nothing catches it, so the wizard ends before it saves the profile. The model returns only the command and environment the preview would start, and it has no failing case.
- KittySetup.ReplaceOrAppendBlock: requires a non-empty start marker. The source passes only its four non-empty marker constants.
- KittyCache.PngPassesThrough: paths are taken already in `Path`'s normal form. `str(Path(p))` collapses "./", "//" and a trailing "/", and that is not modelled: `ConvertSpec` and `ConversionOutcome` return the source path as given and put it into the converter command as given, and `PyText.FileName` and `PyText.Stem` read a path with a trailing "/" as having an empty last part, where `Path("a.jpg/").stem` is "a".
- KittySetup.EscapeRoundTrip: requires a path without backslashes. The hook escapes only double quotes, so a backslash, `$` or backtick in a path keeps its shell meaning.
- KittySetup.PasswordChangeReplacesBlock: requires that the old password holds no '#'. A '#' in it could spell out the end marker inside the old block, and the lazy match would then stop there.
- KittySetup.HookReinstallReplaces: requires that the old paths hold no '#', for the same reason.
- KittySetup.ReinstallReplaces: requires that the first text holds no start marker and no old line holds the end marker. `ReinstallKeepsFollowingText` and `BlockInstalledInPlace` extend it to a block followed by text without the start marker. The general case of several or broken old blocks is covered only by `EndBeforeStartUnchanged`.
- KittyAutoload.AutoloadReplaysPreview: requires the saved selector to be in lower case already. `ReplayKeepsCase` shows the difference when it is not.
