/**
 * The PNG cache of the Kitty adapter: the cache key of a source image, the
 * cached PNG path derived from it, and the converter's effect on the cache
 * directory (a set of existing paths).
 *
 * External effects are parameters: the result of `stat` (`None` when it
 * raises), the SHA-1 hex digest as an uninterpreted function, the random
 * part of the temporary file name, the outcome of the converter process and
 * whether the final rename succeeds.
 */
module KittyCache {
  import opened PyText

  /**
   * What a subprocess run with `check=True, capture_output=True` ends in. A
   * `CalledProcessError` carries the captured stderr as text when it decodes as
   * UTF-8; `UndecodableError` is a `CalledProcessError` whose stderr does not.
   */
  datatype RunOutcome = Completed | CalledProcessError(stderr: string) | UndecodableError | OSError

  /** What the cache key is made of: the resolved source path, its mtime in ns and its size. */
  datatype SourceIdentity = SourceIdentity(resolved: string, mtimeNs: int, size: nat)

  predicate IsHexDigest(s: string) {
    |s| == 40 && forall j :: 0 <= j < |s| ==> IsLowerHexDigit(s[j])
  }

  /** A SHA-1 hex digest: forty lower-case hex digits. */
  type HexDigest = s: string | IsHexDigest(s) witness "0000000000000000000000000000000000000000"

  /**
   * `f"{resolved}:{mtime_ns}:{size}"`.  The size is the text after the key's
   * last ':', whatever the resolved path holds.
   */
  function CacheKey(id: SourceIdentity): (key: string)
    ensures var tail := Decimal(id.size);
      LastIndexOf(key, ':') == |key| - |tail| - 1 && key[|key| - |tail|..] == tail
  {
    var head := id.resolved + ":" + IntDecimal(id.mtimeNs);
    var tail := Decimal(id.size);
    assert forall j :: 0 <= j < |tail| ==> tail[j] != ':' by {
      assert AllDigits(tail);
    }
    ColonSplit(head, tail);
    head + ":" + tail
  }

  /** `~/.cache/pokemon-terminal/kitty-images`. */
  function CacheRoot(home: string): string {
    home + "/.cache/pokemon-terminal/kitty-images"
  }

  /**
   * `_cached_png_path`: `<cache root>/<sha1 of the key>.png`, a name of
   * forty hex digits and ".png" right under the cache root.
   */
  function CachedPngPath(home: string, id: SourceIdentity, digest: string -> HexDigest): (p: string)
    ensures |p| == |CacheRoot(home)| + 45 && EndsWith(p, ".png")
  {
    var p := JoinFile(CacheRoot(home), digest(CacheKey(id)), "png");
    assert p[|p| - 4..] == ".png";
    p
  }

  /** The cached file sits in the cache root, is named by the digest of the key, and is a ".png" file. */
  lemma CachedPngPathShape(home: string, id: SourceIdentity, digest: string -> HexDigest)
    ensures var p := CachedPngPath(home, id, digest);
      Parent(p) == CacheRoot(home) && Stem(p) == digest(CacheKey(id)) && IsPngPath(p)
  {
    var name: string := digest(CacheKey(id));
    HexHasNoSeparator(name);
    StemOfPath(CacheRoot(home), name, "png");
    PngSuffix();
  }

  /**
   * The temporary file `NamedTemporaryFile(dir=<cache root>, suffix=".png")`
   * creates: "tmp<token>.png" directly under the cache root.
   */
  function TempPath(home: string, token: string): (p: string)
    ensures StartsWith(p, CacheRoot(home) + "/tmp") && EndsWith(p, ".png")
  {
    var root := CacheRoot(home);
    var p := JoinFile(root, "tmp" + token, "png");
    assert p == (root + "/tmp") + (token + ".png");
    StartsWithAppend(root + "/tmp", token + ".png");
    assert p[|p| - 4..] == ".png";
    p
  }

  /**
   * The source is passed through when its suffix, lower-cased, is ".png": the
   * path then ends in ".png" in some letter case, after a non-empty stem.
   */
  predicate IsPngPath(path: string) {
    Lower(Suffix(path)) == ".png"
  }

  /** A path that passes the test ends in ".png", in some letter case, after a non-empty stem. */
  lemma PngPathEnding(path: string)
    requires IsPngPath(path)
    ensures |path| > 4 && Lower(path[|path| - 4..]) == ".png"
  {
    var name := FileName(path);
    var i := SuffixStart(name).value;
    assert Suffix(path) == name[i..] && |name[i..]| == 4;
    assert path[|path| - 4..] == name[i..];
  }

  /** The converter command: `sips` on macOS, ImageMagick's `magick` elsewhere. */
  function ConverterArgv(darwin: bool, src: string, out: string): (argv: seq<string>)
    ensures |argv| > 0 && argv[|argv| - 1] == out && src in argv
    ensures argv[0] == (if darwin then "sips" else "magick")
  {
    if darwin then ["sips", "-s", "format", "png", src, "--out", out]
    else ["magick", src, out]
  }

  /** The converter's result: the image kitty is given, the cache directory after it, and the commands run. */
  datatype Conversion = Conversion(image: string, files: set<string>, runs: seq<seq<string>>)

  /** `_convert_to_png` either raises (the source cannot be stat'ed) or returns a conversion. */
  datatype ConvertResult = StatRaised | Converted(conv: Conversion)

  /**
   * `_convert_to_png`, stated on values: pass a PNG through; else return the
   * cached target when it exists; else convert into a temporary file, rename
   * it to the target and return the target, or on any failure remove the
   * temporary file and fall back to the source.
   */
  function ConvertSpec(files: set<string>, path: string, home: string, stat: Option<SourceIdentity>,
                       digest: string -> HexDigest, darwin: bool, token: string,
                       converter: RunOutcome, replaceOk: bool): (r: ConvertResult)
    ensures r.StatRaised? <==> !IsPngPath(path) && stat.None?
    ensures r.Converted? ==> |r.conv.runs| <= 1
    ensures r.Converted? && r.conv.image != path ==>
      stat.Some? && r.conv.image == CachedPngPath(home, stat.value, digest)
  {
    if IsPngPath(path) then Converted(Conversion(path, files, []))
    else
      match stat
      case None => StatRaised
      case Some(id) =>
        var tmp := TempPath(home, token);
        Converted(CachedOrConverted(files, path, CachedPngPath(home, id, digest), tmp, ConverterArgv(darwin, path, tmp),
                                    converter, replaceOk))
  }

  /** Once the target is known: the cached target when it exists, the conversion otherwise. */
  function CachedOrConverted(files: set<string>, src: string, target: string, tmp: string, argv: seq<string>,
                             converter: RunOutcome, replaceOk: bool): (c: Conversion)
    ensures target in files ==> c.image == target && c.files == files && c.runs == []
    ensures target !in files ==> c.runs == [argv]
    ensures c.image == src || c.image == target
    ensures c.files <= files + {c.image}
  {
    if target in files then Conversion(target, files, [])
    else ConvertAttempt(files, src, target, tmp, argv, converter, replaceOk)
  }

  /**
   * The temporary file and the `try` block of `_convert_to_png`: create the
   * temporary file, run the converter into it and rename it to the target,
   * returning the target; on any failure remove it and return the source.
   */
  function ConvertAttempt(files: set<string>, src: string, target: string, tmp: string, argv: seq<string>,
                          converter: RunOutcome, replaceOk: bool): (c: Conversion)
    ensures c.runs == [argv]
    ensures c.image == src || (c.image == target && target in c.files)
    ensures tmp != target ==> tmp !in c.files
    ensures c.files - {target, tmp} == files - {target, tmp}
  {
    if converter.Completed? && replaceOk then Conversion(target, (files + {tmp}) - {tmp} + {target}, [argv])
    else Conversion(src, (files + {tmp}) - {tmp}, [argv])
  }

  // ---------------------------------------------------------------------
  // The key and the paths

  lemma HexHasNoSeparator(s: string)
    requires IsHexDigest(s)
    ensures |s| > 0 && forall j :: 0 <= j < |s| ==> s[j] != '/' && s[j] != '.' && s[j] != 't'
  {
  }

  lemma IntDecimalHasNoColon(i: int)
    ensures forall j :: 0 <= j < |IntDecimal(i)| ==> IntDecimal(i)[j] != ':'
  {
    if i < 0 {
      var s := IntDecimal(i);
      assert s == "-" + Decimal(-i);
      forall j | 0 <= j < |s|
        ensures s[j] != ':'
      {
        if j > 0 {
          assert s[j] == Decimal(-i)[j - 1];
        }
      }
    }
  }

  lemma ColonSplit(a: string, b: string)
    requires forall j :: 0 <= j < |b| ==> b[j] != ':'
    ensures var s := a + ":" + b;
      LastIndexOf(s, ':') == |a| && s[..|a|] == a && s[|a| + 1..] == b
  {
    var s := a + ":" + b;
    LastIndexOfAppend(a + ":", b, ':');
    assert s == (a + ":") + b;
    assert (a + ":")[|a|] == ':';
    assert s[..|a|] == a;
    assert s[|a| + 1..] == b;
  }

  /**
   * The key determines the identity: the last two fields hold no ':' and so
   * can be read back from the right, whatever the resolved path contains.
   * (The digest of the key is not assumed injective.)
   */
  lemma CacheKeyInjective(x: SourceIdentity, y: SourceIdentity)
    requires CacheKey(x) == CacheKey(y)
    ensures x == y
  {
    var ax := x.resolved + ":" + IntDecimal(x.mtimeNs);
    var ay := y.resolved + ":" + IntDecimal(y.mtimeNs);
    ColonSplit(ax, Decimal(x.size));
    ColonSplit(ay, Decimal(y.size));
    assert ax == ay && Decimal(x.size) == Decimal(y.size);
    DecimalInjective(x.size, y.size);
    IntDecimalHasNoColon(x.mtimeNs);
    IntDecimalHasNoColon(y.mtimeNs);
    ColonSplit(x.resolved, IntDecimal(x.mtimeNs));
    ColonSplit(y.resolved, IntDecimal(y.mtimeNs));
    IntDecimalInjective(x.mtimeNs, y.mtimeNs);
  }

  /** The temporary file lives in the target's directory and is a ".png" file. */
  lemma TempBesideTarget(home: string, token: string)
    requires forall j :: 0 <= j < |token| ==> token[j] != '/'
    ensures Parent(TempPath(home, token)) == CacheRoot(home)
    ensures IsPngPath(TempPath(home, token))
  {
    var base := "tmp" + token;
    forall j | 0 <= j < |base|
      ensures base[j] != '/'
    {
      if j >= 3 {
        assert base[j] == token[j - 3];
      }
    }
    StemOfPath(CacheRoot(home), base, "png");
    PngSuffix();
  }

  lemma PngSuffix()
    ensures Lower("." + "png") == ".png"
  {
    assert "." + "png" == ".png";
    assert Lower(".png") == ".png";
  }

  /** The temporary name starts with "tmp" and a digest never contains 't': the two never clash. */
  lemma TempIsNotTarget(home: string, token: string, id: SourceIdentity, digest: string -> HexDigest)
    ensures TempPath(home, token) != CachedPngPath(home, id, digest)
  {
    var root := CacheRoot(home);
    var name: string := digest(CacheKey(id));
    HexHasNoSeparator(name);
    var k := |root| + 1;
    assert TempPath(home, token)[k] == 't';
    assert CachedPngPath(home, id, digest)[k] == name[0];
  }

  // ---------------------------------------------------------------------
  // The converter

  /** A ".png" source (in any letter case) is returned as is: no stat, no command, no file change. */
  lemma PngPassesThrough(files: set<string>, path: string, home: string, stat: Option<SourceIdentity>,
                         digest: string -> HexDigest, darwin: bool, token: string,
                         converter: RunOutcome, replaceOk: bool)
    requires IsPngPath(path)
    ensures ConvertSpec(files, path, home, stat, digest, darwin, token, converter, replaceOk)
      == Converted(Conversion(path, files, []))
  {
  }

  /** An existing cached target is returned without running the converter or touching the directory. */
  lemma CacheHitRunsNothing(files: set<string>, path: string, home: string, id: SourceIdentity,
                            digest: string -> HexDigest, darwin: bool, token: string,
                            converter: RunOutcome, replaceOk: bool)
    requires !IsPngPath(path) && CachedPngPath(home, id, digest) in files
    ensures ConvertSpec(files, path, home, Some(id), digest, darwin, token, converter, replaceOk)
      == Converted(Conversion(CachedPngPath(home, id, digest), files, []))
  {
  }

  /**
   * Whatever the converter and the rename do, the result is the source or the
   * target; the target is returned only when it exists afterwards; the
   * temporary file never survives; and no other file changes.
   */
  lemma ConversionOutcome(files: set<string>, path: string, home: string, id: SourceIdentity,
                          digest: string -> HexDigest, darwin: bool, token: string,
                          converter: RunOutcome, replaceOk: bool)
    requires !IsPngPath(path) && CachedPngPath(home, id, digest) !in files
    requires TempPath(home, token) !in files
    ensures var r := ConvertSpec(files, path, home, Some(id), digest, darwin, token, converter, replaceOk);
      var target := CachedPngPath(home, id, digest);
      r.Converted?
      && (r.conv.image == target <==> converter.Completed? && replaceOk)
      && (r.conv.image != target ==> r.conv.image == path && r.conv.files == files)
      && (r.conv.image == target ==> r.conv.files == files + {target})
      && r.conv.runs == [ConverterArgv(darwin, path, TempPath(home, token))]
  {
    var target := CachedPngPath(home, id, digest);
    var tmp := TempPath(home, token);
    TempIsNotTarget(home, token, id, digest);
    assert (files + {tmp}) - {tmp} == files;
    SourceIsNotTarget(path, home, id, digest);
  }

  /** A source that is not a ".png" file cannot be the ".png" target. */
  lemma SourceIsNotTarget(path: string, home: string, id: SourceIdentity, digest: string -> HexDigest)
    requires !IsPngPath(path)
    ensures path != CachedPngPath(home, id, digest)
  {
    CachedPngPathShape(home, id, digest);
  }

  /** After a successful conversion, converting the same unchanged source again is a cache hit. */
  lemma SecondCallHits(files: set<string>, path: string, home: string, id: SourceIdentity,
                       digest: string -> HexDigest, darwin: bool, token1: string, token2: string,
                       converter1: RunOutcome, converter2: RunOutcome, ok1: bool, ok2: bool)
    requires !IsPngPath(path)
    requires var r := ConvertSpec(files, path, home, Some(id), digest, darwin, token1, converter1, ok1);
      r.Converted? && r.conv.image == CachedPngPath(home, id, digest)
    ensures var r1 := ConvertSpec(files, path, home, Some(id), digest, darwin, token1, converter1, ok1);
      var r2 := ConvertSpec(r1.conv.files, path, home, Some(id), digest, darwin, token2, converter2, ok2);
      r2 == Converted(Conversion(CachedPngPath(home, id, digest), r1.conv.files, []))
  {
    var target := CachedPngPath(home, id, digest);
    SourceIsNotTarget(path, home, id, digest);
    var tmp := TempPath(home, token1);
    var c1 := CachedOrConverted(files, path, target, tmp, ConverterArgv(darwin, path, tmp), converter1, ok1);
    assert ConvertSpec(files, path, home, Some(id), digest, darwin, token1, converter1, ok1) == Converted(c1);
    assert target in c1.files;
    CacheHitRunsNothing(c1.files, path, home, id, digest, darwin, token2, converter2, ok2);
  }
}
