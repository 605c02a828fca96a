/**
 * The two text passes that turn a VS Code settings file (JSON with comments
 * and trailing commas) into plain JSON: the comment stripper, a regular
 * expression substitution, and the trailing-comma scanner, a character loop
 * with an in-string / escape state.
 */
module JsoncText {
  import opened PyText

  // ---------------------------------------------------------------------
  // Comments

  /**
   * One match of the comment pattern, or one character it skips. The pattern's
   * alternatives are a line comment, a block comment, a single- or
   * double-quoted string; they start with different characters, so at most one
   * of them applies at any position.
   */
  datatype Token =
    | LineComment(text: string)
    | BlockComment(text: string)
    | Quoted(text: string)
    | Other(c: char)

  function TokenText(t: Token): string {
    match t
    case Other(c) => [c]
    case _ => t.text
  }

  predicate IsQuote(c: char) {
    c == '"' || c == '\''
  }

  /**
   * The end (one past the closing quote) of a string literal whose body is
   * scanned from `j`: a backslash takes the next character with it, only the
   * opening quote closes, and an unterminated literal does not match.
   */
  function QuotedEnd(s: string, q: char, j: nat): (r: Option<nat>)
    requires j <= |s|
    ensures r.Some? ==> j < r.value <= |s| && s[r.value - 1] == q
    decreases |s| - j
  {
    if j == |s| then None
    else if s[j] == '\\' then (if j + 1 < |s| then QuotedEnd(s, q, j + 2) else None)
    else if s[j] == q then Some(j + 1)
    else QuotedEnd(s, q, j + 1)
  }

  /** The token the substitution sees at the start of `s`. */
  function NextToken(s: string): (t: Token)
    requires |s| > 0
    ensures 0 < |TokenText(t)| <= |s| && s[..|TokenText(t)|] == TokenText(t)
  {
    if StartsWith(s, "//") then
      // `$` in multi-line mode: the comment ends before the first newline, or at the end.
      LineComment(s[..IndexOrEnd(s, '\n', 2)])
    else if StartsWith(s, "/*") && FindFrom(s, "*/", 2).Some? then
      BlockComment(s[..FindFrom(s, "*/", 2).value + 2])
    else if IsQuote(s[0]) && QuotedEnd(s, s[0], 1).Some? then
      Quoted(s[..QuotedEnd(s, s[0], 1).value])
    else
      Other(s[0])
  }

  /** The text split into the substitution's matches and the characters between them. */
  function Tokenize(s: string): (r: seq<Token>)
    ensures |r| <= |s| && (r == [] <==> s == [])
    decreases |s|
  {
    if s == [] then []
    else
      var t := NextToken(s);
      [t] + Tokenize(s[|TokenText(t)|..])
  }

  function Unparse(tokens: seq<Token>): string {
    if tokens == [] then "" else TokenText(tokens[0]) + Unparse(tokens[1..])
  }

  /** The replacer: a match starting with '/' (a comment) becomes one space; anything else is kept. */
  function Render(t: Token): string {
    match t
    case LineComment(_) => " "
    case BlockComment(_) => " "
    case _ => TokenText(t)
  }

  function RenderAll(tokens: seq<Token>): string {
    if tokens == [] then "" else Render(tokens[0]) + RenderAll(tokens[1..])
  }

  /** `_strip_json_comments`: each comment becomes one space, so the text never grows. */
  function StripJsonComments(s: string): (r: string)
    ensures |r| <= |s|
  {
    RenderShrinks(s);
    RenderAll(Tokenize(s))
  }

  /** Every token renders to at most its own text, so rendering the tokens of `s` is no longer than `s`. */
  lemma {:induction false} RenderShrinks(s: string)
    ensures |RenderAll(Tokenize(s))| <= |s|
    decreases |s|
  {
    if s != [] {
      var t := NextToken(s);
      var n := |TokenText(t)|;
      var rest := Tokenize(s[n..]);
      assert Tokenize(s) == [t] + rest;
      assert ([t] + rest)[1..] == rest;
      assert RenderAll(Tokenize(s)) == Render(t) + RenderAll(rest);
      RenderShrinks(s[n..]);
    }
  }

  /** The tokens partition the text: nothing is lost or invented. */
  lemma {:induction false} TokenizeRoundTrip(s: string)
    ensures Unparse(Tokenize(s)) == s
    decreases |s|
  {
    if s != [] {
      var t := NextToken(s);
      var n := |TokenText(t)|;
      var rest := Tokenize(s[n..]);
      calc {
        Unparse(Tokenize(s));
      == { assert Tokenize(s) == [t] + rest; assert ([t] + rest)[1..] == rest; }
        TokenText(t) + Unparse(rest);
      == { TokenizeRoundTrip(s[n..]); }
        s[..n] + s[n..];
      ==
        s;
      }
    }
  }

  lemma StripUnfold(s: string)
    requires |s| > 0
    ensures StripJsonComments(s) == Render(NextToken(s)) + StripJsonComments(s[|TokenText(NextToken(s))|..])
  {
  }

  /** A `//` comment, up to but not including the end of its line, becomes one space. */
  lemma LineCommentBecomesSpace(c: string, rest: string)
    requires forall j :: 0 <= j < |c| ==> c[j] != '\n'
    ensures StripJsonComments("//" + c + "\n" + rest) == " " + StripJsonComments("\n" + rest)
  {
    var s := "//" + c + "\n" + rest;
    assert s[..2] == "//";
    assert s[2 + |c|] == '\n';
    assert IndexOrEnd(s, '\n', 2) == 2 + |c|;
    assert NextToken(s) == LineComment(s[..2 + |c|]);
    assert s[2 + |c|..] == "\n" + rest;
    StripUnfold(s);
  }

  /** A `//` comment on the last line reaches the end of the text. */
  lemma FinalLineCommentBecomesSpace(c: string)
    requires forall j :: 0 <= j < |c| ==> c[j] != '\n'
    ensures StripJsonComments("//" + c) == " "
  {
    var s := "//" + c;
    assert s[..2] == "//";
    assert IndexOrEnd(s, '\n', 2) == |s|;
    assert NextToken(s) == LineComment(s);
    StripUnfold(s);
    assert s[|s|..] == [];
  }

  /** A closed block comment becomes one space, whatever it spans (newlines included). */
  lemma BlockCommentBecomesSpace(c: string, rest: string)
    requires forall k :: 0 <= k < |c| - 1 ==> !(c[k] == '*' && c[k + 1] == '/')
    ensures StripJsonComments("/*" + c + "*/" + rest) == " " + StripJsonComments(rest)
  {
    var s := "/*" + c + "*/" + rest;
    var e := 2 + |c|;
    assert s[..2] == "/*";
    assert OccursAt(s, "*/", e) by {
      assert s[e] == '*' && s[e + 1] == '/';
      assert s[e..e + 2] == "*/";
    }
    forall k | 2 <= k < e
      ensures !OccursAt(s, "*/", k)
    {
      if k < e - 1 {
        assert s[k] == c[k - 2] && s[k + 1] == c[k - 1];
      } else {
        assert s[k + 1] == '*';
      }
    }
    assert FindFrom(s, "*/", 2) == Some(e);
    assert NextToken(s) == BlockComment(s[..e + 2]);
    assert s[e + 2..] == rest;
    StripUnfold(s);
  }

  /** A literal that matches in `a` matches identically in any extension of `a`. */
  lemma {:induction false} QuotedEndExtends(a: string, b: string, q: char, j: nat)
    requires j <= |a| && QuotedEnd(a, q, j).Some?
    ensures QuotedEnd(a + b, q, j) == QuotedEnd(a, q, j)
    decreases |a| - j
  {
    var s := a + b;
    assert s[j] == a[j];
    if a[j] == '\\' {
      assert s[j + 1] == a[j + 1];
      QuotedEndExtends(a, b, q, j + 2);
    } else if a[j] != q {
      QuotedEndExtends(a, b, q, j + 1);
    }
  }

  /** A complete string literal. */
  predicate IsStringLiteral(lit: string) {
    |lit| >= 2 && IsQuote(lit[0]) && QuotedEnd(lit, lit[0], 1) == Some(|lit|)
  }

  /** A string literal, including any comment marker inside it, is left untouched. */
  lemma QuotedStringKept(lit: string, rest: string)
    requires IsStringLiteral(lit)
    ensures StripJsonComments(lit + rest) == lit + StripJsonComments(rest)
  {
    var s := lit + rest;
    QuotedToken(lit, rest);
    assert s[|lit|..] == rest;
    StripUnfold(s);
  }

  /** Followed by anything, a complete string literal is the next token. */
  lemma QuotedToken(lit: string, rest: string)
    requires IsStringLiteral(lit)
    ensures NextToken(lit + rest) == Quoted(lit)
  {
    var s := lit + rest;
    assert s[0] == lit[0];
    assert !StartsWith(s, "//") && !StartsWith(s, "/*") by {
      assert s[0] != '/';
    }
    QuotedEndExtends(lit, rest, lit[0], 1);
    assert s[..|lit|] == lit;
  }

  /** Text with no '/' has no comment: it passes through unchanged. */
  lemma {:induction false} NoSlashUnchanged(s: string)
    requires forall j :: 0 <= j < |s| ==> s[j] != '/'
    ensures StripJsonComments(s) == s
    decreases |s|
  {
    if s != [] {
      var t := NextToken(s);
      var n := |TokenText(t)|;
      calc {
        StripJsonComments(s);
      == { StripUnfold(s); }
        Render(t) + StripJsonComments(s[n..]);
      == { NoCommentToken(s); NoSlashUnchanged(s[n..]); }
        s[..n] + s[n..];
      ==
        s;
      }
    }
  }

  /** Text that does not start with '/' starts with no comment: its first token is rendered as is. */
  lemma NoCommentToken(s: string)
    requires |s| > 0 && s[0] != '/'
    ensures Render(NextToken(s)) == s[..|TokenText(NextToken(s))|]
  {
    assert !StartsWith(s, "//") && !StartsWith(s, "/*");
  }

  // ---------------------------------------------------------------------
  // Trailing commas

  /** Where the scanner is: outside any string, or inside one opened by `quote`. */
  datatype ScanState = Outside | InString(quote: char, escape: bool)

  /** One step of the scanner's state machine. */
  function Step(st: ScanState, c: char): (r: ScanState)
    ensures st.Outside? ==> (r.InString? <==> IsQuote(c)) && (r.InString? ==> r.quote == c && !r.escape)
    ensures st.InString? && r.Outside? ==> c == st.quote && !st.escape
    ensures r.InString? && r.escape ==> st.InString? && !st.escape && c == '\\'
  {
    match st
    case InString(q, esc) =>
      if esc then InString(q, false)
      else if c == '\\' then InString(q, true)
      else if c == q then Outside
      else st
    case Outside =>
      if IsQuote(c) then InString(c, false) else Outside
  }

  /** The scanner's state before character `i`. */
  function StateBefore(text: string, i: nat): (r: ScanState)
    requires i <= |text|
    ensures r.InString? ==> IsQuote(r.quote)
  {
    if i == 0 then Outside else Step(StateBefore(text, i - 1), text[i - 1])
  }

  /** The first index at or after `j` that is not whitespace, or `|text|`. */
  function NextNonSpace(text: string, j: nat): (k: nat)
    requires j <= |text|
    ensures j <= k <= |text|
    ensures forall m :: j <= m < k ==> IsSpace(text[m])
    ensures k < |text| ==> !IsSpace(text[k])
    decreases |text| - j
  {
    if j == |text| || !IsSpace(text[j]) then j else NextNonSpace(text, j + 1)
  }

  /** A comma outside strings whose next non-space character is ']' or '}' is dropped. */
  predicate Dropped(text: string, i: nat)
    requires i < |text|
    ensures Dropped(text, i) ==> text[i] == ',' && i + 1 < |text|
  {
    StateBefore(text, i).Outside? && text[i] == ','
    && var k := NextNonSpace(text, i + 1);
       k < |text| && (text[k] == ']' || text[k] == '}')
  }

  /** What the scanner has written after the first `n` characters. */
  function Kept(text: string, n: nat): (r: string)
    requires n <= |text|
    ensures |r| <= n
  {
    if n == 0 then ""
    else Kept(text, n - 1) + (if Dropped(text, n - 1) then "" else [text[n - 1]])
  }

  /** `_strip_trailing_commas` as a function of the text: it only removes characters. */
  function WithoutTrailingCommas(text: string): (r: string)
    ensures |r| <= |text|
  {
    Kept(text, |text|)
  }

  /** `_strip_trailing_commas`, with the source's three state variables and its look-ahead loop. */
  method StripTrailingCommas(text: string) returns (r: string)
    ensures r == WithoutTrailingCommas(text)
  {
    var output: string := [];
    var inString := false;
    var stringQuote: string := "";
    var escape := false;
    for i := 0 to |text|
      invariant output == Kept(text, i)
      invariant inString <==> StateBefore(text, i).InString?
      invariant inString ==> stringQuote == [StateBefore(text, i).quote] && escape == StateBefore(text, i).escape
      invariant !inString ==> stringQuote == "" && !escape
    {
      var c := text[i];
      if inString {
        output := output + [c];
        if escape {
          escape := false;
        } else if c == '\\' {
          escape := true;
        } else if [c] == stringQuote {
          inString := false;
          stringQuote := "";
        }
        continue;
      }
      if c == '"' || c == '\'' {
        inString := true;
        stringQuote := [c];
        output := output + [c];
        continue;
      }
      if c == ',' {
        var j := i + 1;
        while j < |text| && IsSpace(text[j])
          invariant i + 1 <= j <= |text|
          invariant forall m :: i + 1 <= m < j ==> IsSpace(text[m])
        {
          j := j + 1;
        }
        FirstNonSpace(text, i + 1, j);
        if j < |text| && (text[j] == ']' || text[j] == '}') {
          continue;
        }
      }
      output := output + [c];
    }
    r := output;
  }

  lemma {:induction false} FirstNonSpace(text: string, from: nat, j: nat)
    requires from <= j <= |text|
    requires forall m :: from <= m < j ==> IsSpace(text[m])
    requires j < |text| ==> !IsSpace(text[j])
    ensures NextNonSpace(text, from) == j
    decreases j - from
  {
    if from < j {
      FirstNonSpace(text, from + 1, j);
    }
  }

  /** The output is the input with some commas removed: every other character keeps its count. */
  lemma {:induction false} OnlyCommasRemoved(text: string, n: nat)
    requires n <= |text|
    ensures forall c :: c != ',' ==> multiset(Kept(text, n))[c] == multiset(text[..n])[c]
  {
    if n > 0 {
      OnlyCommasRemoved(text, n - 1);
      var before := Kept(text, n - 1);
      assert text[..n] == text[..n - 1] + [text[n - 1]];
      if Dropped(text, n - 1) {
        assert text[n - 1] == ',' && Kept(text, n) == before;
      } else {
        assert Kept(text, n) == before + [text[n - 1]];
      }
    }
  }

  /** Text without commas is unchanged. */
  lemma {:induction false} NoCommaUnchanged(text: string, n: nat)
    requires n <= |text|
    requires forall j :: 0 <= j < |text| ==> text[j] != ','
    ensures Kept(text, n) == text[..n]
  {
    if n > 0 {
      NoCommaUnchanged(text, n - 1);
      assert text[..n] == text[..n - 1] + [text[n - 1]];
    }
  }

  /**
   * Inside a literal the scanner copies everything: started at body position
   * `j` with no pending escape, it stays in the string until the closing
   * quote that `QuotedEnd` finds, dropping nothing on the way.
   */
  lemma LiteralCopied(text: string, start: nat, lit: string, j: nat)
    requires start + |lit| <= |text| && forall k :: 0 <= k < |lit| ==> text[start + k] == lit[k]
    requires 1 <= j <= |lit| && |lit| >= 1 && IsQuote(lit[0])
    requires QuotedEnd(lit, lit[0], j) == Some(|lit|)
    requires StateBefore(text, start + j) == InString(lit[0], false)
    ensures StateBefore(text, start + |lit|) == Outside
    ensures Kept(text, start + |lit|) == Kept(text, start + j) + lit[j..]
  {
    LiteralScanned(text, start, lit, j);
    KeptInStrings(text, start + j, start + |lit|);
    assert text[start + j..start + |lit|] == lit[j..];
  }

  /**
   * The scanner's state through a literal's body: in the string at every
   * position up to the closing quote, outside just after it.
   */
  lemma {:induction false} LiteralScanned(text: string, start: nat, lit: string, j: nat)
    requires start + |lit| <= |text| && forall k :: 0 <= k < |lit| ==> text[start + k] == lit[k]
    requires 1 <= j <= |lit| && IsQuote(lit[0])
    requires QuotedEnd(lit, lit[0], j) == Some(|lit|)
    requires StateBefore(text, start + j) == InString(lit[0], false)
    ensures StateBefore(text, start + |lit|) == Outside
    ensures forall p :: start + j <= p < start + |lit| ==> StateBefore(text, p).InString?
    decreases |lit| - j
  {
    var q := lit[0];
    var i := start + j;
    assert text[i] == lit[j];
    if lit[j] == '\\' {
      assert text[i + 1] == lit[j + 1];
      assert StateBefore(text, i + 1) == InString(q, true);
      assert StateBefore(text, i + 2) == InString(q, false);
      LiteralScanned(text, start, lit, j + 2);
    } else if lit[j] == q {
      assert StateBefore(text, i + 1) == Outside;
    } else {
      assert StateBefore(text, i + 1) == InString(q, false);
      LiteralScanned(text, start, lit, j + 1);
    }
  }

  /** Where the scanner is in a string at every position, it copies the text unchanged. */
  lemma {:induction false} KeptInStrings(text: string, a: nat, b: nat)
    requires a <= b <= |text|
    requires forall p :: a <= p < b ==> StateBefore(text, p).InString?
    ensures Kept(text, b) == Kept(text, a) + text[a..b]
    decreases b - a
  {
    if a < b {
      KeptInStrings(text, a, b - 1);
      CopiedInString(text, b - 1);
      assert text[a..b] == text[a..b - 1] + [text[b - 1]];
    }
  }

  /** Inside a string the scanner copies the character and takes one step. */
  lemma CopiedInString(text: string, i: nat)
    requires i < |text| && StateBefore(text, i).InString?
    ensures Kept(text, i + 1) == Kept(text, i) + [text[i]]
    ensures StateBefore(text, i + 1) == Step(StateBefore(text, i), text[i])
  {
  }

  /**
   * A string literal met outside any string is copied verbatim, commas and
   * brackets included, and the scanner is outside again after it.
   */
  lemma StringLiteralVerbatim(text: string, start: nat, lit: string)
    requires IsStringLiteral(lit)
    requires start + |lit| <= |text| && text[start..start + |lit|] == lit
    requires StateBefore(text, start) == Outside
    ensures StateBefore(text, start + |lit|) == Outside
    ensures Kept(text, start + |lit|) == Kept(text, start) + lit
  {
    forall k | 0 <= k < |lit|
      ensures text[start + k] == lit[k]
    {
      assert text[start..start + |lit|][k] == text[start + k];
    }
    assert Kept(text, start + 1) == Kept(text, start) + lit[0..1] by {
      assert !Dropped(text, start);
      assert [text[start]] == lit[0..1];
    }
    assert StateBefore(text, start + 1) == InString(lit[0], false);
    LiteralCopied(text, start, lit, 1);
    JoinSlices(lit, 0, 1, Kept(text, start));
  }

  /** The comma of `{"a": 1,}` is dropped, so the text becomes the valid JSON `{"a": 1}`. */
  lemma TrailingCommaDropped()
    ensures WithoutTrailingCommas("{\"a\": 1,}") == "{\"a\": 1}"
  {
    var s := "{\"a\": 1,}";
    assert StateBefore(s, 2) == InString('"', false);
    assert StateBefore(s, 4) == Outside;
    assert StateBefore(s, 7) == Outside;
    assert NextNonSpace(s, 8) == 8;
    assert Dropped(s, 7);
    assert Kept(s, 4) == "{\"a\"";
    assert Kept(s, 7) == "{\"a\": 1";
    assert !Dropped(s, 8);
  }
}
