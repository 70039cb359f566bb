/** The string handling of server/discord_cog.py: the identifier check for
    language names, the parsing of a "run" message into a language and a code
    block, and the truncation of long evaluator output shown in an embed. */
module DiscordCog {
  import opened Wrappers
  import Text

  const MAX_EMBED_FIELD_SIZE := 1024
  const FENCE := "```"

  predicate IsAsciiLetter(c: char) {
    'a' <= c <= 'z' || 'A' <= c <= 'Z'
  }

  predicate IsAsciiDigit(c: char) {
    '0' <= c <= '9'
  }

  /** `[_a-zA-Z]` */
  predicate IdentStart(c: char) {
    c == '_' || IsAsciiLetter(c)
  }

  /** `[_a-zA-Z0-9]` */
  predicate IdentChar(c: char) {
    IdentStart(c) || IsAsciiDigit(c)
  }

  /** An identifier character followed only by identifier characters or digits. */
  predicate IdentShape(s: string) {
    |s| > 0 && IdentStart(s[0]) && forall j :: 1 <= j < |s| ==> IdentChar(s[j])
  }

  /** Where the greedy `[_a-zA-Z0-9]*` starting at `i` stops. */
  function RunEnd(s: string, i: nat): (e: nat)
    requires i <= |s|
    ensures i <= e <= |s|
    ensures forall j :: i <= j < e ==> IdentChar(s[j])
    ensures e == |s| || !IdentChar(s[e])
    decreases |s| - i
  {
    if i < |s| && IdentChar(s[i]) then RunEnd(s, i + 1) else i
  }

  /** `ident_pattern.match(s) is not None` for `^[_a-zA-Z][_a-zA-Z0-9]*$`, where
      Python's `$` matches at the end of the string or just before a final newline:
      the identifier-shaped strings, with or without one trailing newline. */
  function PatternMatches(s: string): (r: bool)
    ensures r <==> IdentShape(s) || (|s| > 0 && s[|s| - 1] == '\n' && IdentShape(s[..|s| - 1]))
  {
    RunEndShape(s);
    |s| > 0 && IdentStart(s[0]) &&
    var e := RunEnd(s, 1);
    e == |s| || (e == |s| - 1 && s[e] == '\n')
  }

  /** Where the greedy run stops tells whether the string is identifier-shaped,
      with or without one trailing newline. */
  lemma RunEndShape(s: string)
    ensures (|s| > 0 && IdentStart(s[0]) && (RunEnd(s, 1) == |s| || (RunEnd(s, 1) == |s| - 1 && s[|s| - 1] == '\n')))
        <==> IdentShape(s) || (|s| > 0 && s[|s| - 1] == '\n' && IdentShape(s[..|s| - 1]))
  {
    if |s| > 0 && IdentStart(s[0]) {
      var e := RunEnd(s, 1);
      if IdentShape(s) {
        assert e == |s|;
      } else if s[|s| - 1] == '\n' && IdentShape(s[..|s| - 1]) {
        assert forall j :: 1 <= j < |s| - 1 ==> IdentChar(s[j]) by {
          forall j | 1 <= j < |s| - 1 ensures IdentChar(s[j]) {
            assert s[..|s| - 1][j] == s[j];
          }
        }
        assert e == |s| - 1;
      }
      if e == |s| - 1 && s[e] == '\n' {
        assert IdentShape(s[..|s| - 1]);
      }
    }
  }

  /** `is_identifier`: between 3 and 16 characters, starting with `_` or an
      ASCII letter and going on with `_`, letters or digits (one final newline
      is let through by `$`). */
  function IsIdentifier(ident: string): (r: bool)
    ensures |ident| < 3 || |ident| > 16 ==> !r
    ensures 3 <= |ident| <= 16 ==>
      (r <==> IdentShape(ident) || (ident[|ident| - 1] == '\n' && IdentShape(ident[..|ident| - 1])))
  {
    if |ident| < 3 || |ident| > 16 then false else PatternMatches(ident)
  }

  /** `is_identifier` as evidently intended: the whole name, newline-free, must match. */
  function IsIdentifierFixed(ident: string): (r: bool)
    ensures r <==> 3 <= |ident| <= 16 && IdentShape(ident)
  {
    if |ident| < 3 || |ident| > 16 then false
    else IdentStart(ident[0]) && RunEnd(ident, 1) == |ident|
  }

  /** As written, a name with a trailing newline passes the check. */
  lemma TrailingNewlineAccepted()
    ensures IsIdentifier("abc\n") && !IsIdentifierFixed("abc\n")
  {
    assert IdentShape("abc");
    assert "abc\n"[..3] == "abc";
  }

  /** `str.isalnum` of one character, restricted to ASCII. */
  predicate IsAlnum(c: char) {
    IsAsciiLetter(c) || IsAsciiDigit(c)
  }

  /** The exceptions `process_run_command` can end in, or its early error replies. */
  datatype RunError =
    | NoCodeBlock          // fewer than two fences
    | MultipleCodeBlocks   // more than two fences
    | PrefixIndexError     // `prefix[-1]` on an empty stripped prefix
    | TagUnpackError       // `_, lang = langblob.split(':')` with other than one colon

  datatype RunRequest = RunRequest(lang: Option<string>, code: string)

  /** Lines 98-101: a fenced block that holds a newline and starts with an
      alphanumeric character names its language on its first line. */
  function LeadingLanguage(block: string): (r: (Option<string>, string))
    ensures r.0.None? ==> r.1 == block
    ensures r.0.Some? ==> |block| > 0 && IsAlnum(block[0])
    ensures r.0.Some? ==> exists line :: '\n' !in line && block == line + "\n" + r.1 && r.0.value == Text.Strip(line)
    ensures r.0.None? <==> '\n' !in block || !IsAlnum(block[0])
  {
    if '\n' in block && IsAlnum(block[0]) then
      var i := Text.Find(block, "\n");
      FirstNewline(block, i);
      assert block == block[..i] + "\n" + block[i + 1..];
      (Some(Text.Strip(block[..i])), block[i + 1..])
    else (None, block)
  }

  lemma OccursAtChar(s: string, c: char, k: int)
    ensures Text.OccursAt(s, [c], k) <==> 0 <= k < |s| && s[k] == c
  {
    if 0 <= k < |s| {
      assert s[k..k + 1] == [s[k]];
    }
  }

  lemma FirstNewline(block: string, i: int)
    requires '\n' in block && i == Text.Find(block, "\n")
    ensures 0 <= i < |block| && block[i] == '\n' && '\n' !in block[..i]
  {
    var j :| 0 <= j < |block| && block[j] == '\n';
    OccursAtChar(block, '\n', j);
    OccursAtChar(block, '\n', i);
    forall k | 0 <= k < i ensures block[..i][k] != '\n' {
      OccursAtChar(block, '\n', k);
    }
  }

  /** A `lang:` or `language:` tag. */
  predicate IsTag(blob: string) {
    Text.StartsWith(blob, "lang:") || Text.StartsWith(blob, "language:")
  }

  /** The stripped text between the last two backticks of a prefix that ends
      in a backtick and holds at least two (`rsplit` without a limit splits
      like `split`). It holds no backtick and no whitespace at either end. */
  function TagBlob(prefix: string): (r: Option<string>)
    ensures r.Some? <==> |prefix| > 0 && prefix[|prefix| - 1] == '`' && Text.Count(prefix, "`") >= 2
    ensures r.Some? ==> '`' !in r.value
    ensures r.Some? ==> r.value == [] || (!Text.IsSpace(r.value[0]) && !Text.IsSpace(r.value[|r.value| - 1]))
    ensures r.Some? ==> exists i :: 0 <= i < |prefix| - 1 && prefix[i] == '`' && '`' !in prefix[i + 1..|prefix| - 1]
                                    && r.value == Text.Strip(prefix[i + 1..|prefix| - 1])
  {
    Text.SplitCount(prefix, "`");
    if |prefix| > 0 && prefix[|prefix| - 1] == '`' && |Text.Split(prefix, "`")| >= 3 then
      var split := Text.Split(prefix, "`");
      NoTickInPiece(prefix, |split| - 2);
      LastTwoTicks(prefix);
      Some(Text.Strip(split[|split| - 2]))
    else None
  }

  /** For a prefix ending in a backtick, the last piece of its split is empty
      and the one before it lies between the last two backticks. */
  lemma LastTwoTicks(prefix: string)
    requires |prefix| > 0 && prefix[|prefix| - 1] == '`' && |Text.Split(prefix, "`")| >= 3
    ensures var split := Text.Split(prefix, "`");
      exists i :: 0 <= i < |prefix| - 1 && prefix[i] == '`' && '`' !in prefix[i + 1..|prefix| - 1]
                  && split[|split| - 2] == prefix[i + 1..|prefix| - 1]
  {
    var split := Text.Split(prefix, "`");
    var n := |split|;
    Text.SplitJoin(prefix, "`");
    Text.JoinSnoc(split, "`");
    var b := Text.Join(split[..n - 1], "`");
    NoTick(prefix, n - 1);
    assert prefix == b + "`";
    Text.JoinSnoc(split[..n - 1], "`");
    assert split[..n - 1][..n - 2] == split[..n - 2];
    var a := Text.Join(split[..n - 2], "`");
    assert prefix == a + "`" + split[n - 2] + "`";
    var i := |a|;
    assert prefix[i] == '`' && prefix[i + 1..|prefix| - 1] == split[n - 2];
    NoTick(prefix, n - 2);
  }

  /** No piece of a split on a backtick holds one. */
  lemma NoTick(prefix: string, j: int)
    requires 0 <= j < |Text.Split(prefix, "`")|
    ensures '`' !in Text.Split(prefix, "`")[j]
  {
    var p := Text.Split(prefix, "`")[j];
    forall i | 0 <= i < |p| ensures p[i] != '`' {
      Text.SplitPiecesFree(prefix, "`", j, i);
      OccursAtChar(p, '`', i);
    }
  }

  /** No piece of a split on a backtick holds one, stripped or not. */
  lemma NoTickInPiece(prefix: string, j: int)
    requires 0 <= j < |Text.Split(prefix, "`")|
    ensures '`' !in Text.Strip(Text.Split(prefix, "`")[j])
  {
    var p := Text.Split(prefix, "`")[j];
    NoTick(prefix, j);
    var q := Text.Strip(p);
    var n := Text.LeadingSpaces(p);
    assert forall k :: 0 <= k < |q| ==> q[k] == p[n + k];
  }

  /** The `lang:` or `language:` tag a stripped prefix ends in, if any. */
  function Tag(prefix: string): Option<string> {
    var blob := TagBlob(prefix);
    if blob.Some? && IsTag(blob.value) then blob else None
  }

  /** Lines 102-108 as written, on the stripped prefix: an empty prefix fails
      on `prefix[-1]`; a tag overrides the language with what follows its only
      colon, and a tag with other than one colon fails the two-way unpack. */
  function LanguageTag(prefix: string, lang: Option<string>): (r: Result<Option<string>, RunError>)
    ensures r == Failure(PrefixIndexError) <==> |prefix| == 0
    ensures r.Success? || r == Failure(PrefixIndexError) || r == Failure(TagUnpackError)
    ensures |prefix| > 0 && Tag(prefix).None? ==> r == Success(lang)
    ensures |prefix| > 0 && Tag(prefix).Some? ==>
      var blob := Tag(prefix).value;
      (r == Failure(TagUnpackError) <==> Text.Count(blob, ":") != 1)
      && (r.Success? ==> Text.Find(blob, ":") >= 0 && r == Success(Some(blob[Text.Find(blob, ":") + 1..])))
  {
    if |prefix| == 0 then Failure(PrefixIndexError)
    else match Tag(prefix)
      case None => Success(lang)
      case Some(blob) =>
        var parts := Text.Split(blob, ":");
        Text.SplitCount(blob, ":");
        if |parts| != 2 then Failure(TagUnpackError)
        else
          Text.SplitOnce(blob, ":");
          Success(Some(parts[1]))
  }

  /** Lines 102-108 with `prefix.endswith('`')` for `prefix[-1] == '`'`:
      an empty prefix carries no tag. */
  function LanguageTagFixed(prefix: string, lang: Option<string>): (r: Result<Option<string>, RunError>)
    ensures r != Failure(PrefixIndexError)
    ensures |prefix| == 0 ==> r == Success(lang)
    ensures |prefix| > 0 ==> r == LanguageTag(prefix, lang)
  {
    if |prefix| == 0 then Success(lang) else LanguageTag(prefix, lang)
  }

  /** The text between the first two fences. */
  function Block(content: string): string {
    var pieces := Text.Split(content, FENCE);
    if |pieces| >= 2 then pieces[1] else ""
  }

  /** The stripped text before the first fence. */
  function Prefix(content: string): string {
    Text.Strip(Text.Split(content, FENCE)[0])
  }

  /** The parsing in `process_run_command` as written. */
  function ParseRunCommand(content: string): (r: Result<RunRequest, RunError>)
    ensures r == Failure(NoCodeBlock) <==> Text.Count(content, FENCE) < 2
    ensures r == Failure(MultipleCodeBlocks) <==> Text.Count(content, FENCE) > 2
    ensures r == Failure(PrefixIndexError) <==> Text.Count(content, FENCE) == 2 && Prefix(content) == ""
    ensures r.Success? ==> Text.Count(content, FENCE) == 2 && RunRequestFrom(Block(content), r.value)
    ensures r == Failure(TagUnpackError) <==>
      (Text.Count(content, FENCE) == 2 && Prefix(content) != ""
       && Tag(Prefix(content)).Some? && Text.Count(Tag(Prefix(content)).value, ":") != 1)
    ensures r.Success? ==> r.value.code == LeadingLanguage(Block(content)).1
    ensures r.Success? && Tag(Prefix(content)).None? ==> r.value.lang == LeadingLanguage(Block(content)).0
    ensures r.Success? && Tag(Prefix(content)).Some? ==>
      var blob := Tag(Prefix(content)).value;
      Text.Find(blob, ":") >= 0 && r.value.lang == Some(blob[Text.Find(blob, ":") + 1..])
  {
    Text.SplitCount(content, FENCE);
    var pieces := Text.Split(content, FENCE);
    if |pieces| < 3 then Failure(NoCodeBlock)
    else if |pieces| > 3 then Failure(MultipleCodeBlocks)
    else
      var prefix := Text.Strip(pieces[0]);
      var (lang, code) := LeadingLanguage(pieces[1]);
      var tagged :- LanguageTag(prefix, lang);
      Success(RunRequest(tagged, code))
  }

  /** `process_run_command` with the corrected prefix test. */
  function ParseRunCommandFixed(content: string): (r: Result<RunRequest, RunError>)
    ensures r != Failure(PrefixIndexError)
    ensures r == Failure(NoCodeBlock) <==> Text.Count(content, FENCE) < 2
    ensures r == Failure(MultipleCodeBlocks) <==> Text.Count(content, FENCE) > 2
    ensures r.Success? ==> Text.Count(content, FENCE) == 2 && RunRequestFrom(Block(content), r.value)
    ensures r.Success? ==> r.value.code == LeadingLanguage(Block(content)).1
    ensures Prefix(content) != "" ==> r == ParseRunCommand(content)
  {
    Text.SplitCount(content, FENCE);
    var pieces := Text.Split(content, FENCE);
    if |pieces| < 3 then Failure(NoCodeBlock)
    else if |pieces| > 3 then Failure(MultipleCodeBlocks)
    else
      var prefix := Text.Strip(pieces[0]);
      var (lang, code) := LeadingLanguage(pieces[1]);
      var tagged :- LanguageTagFixed(prefix, lang);
      Success(RunRequest(tagged, code))
  }

  /** The code sent for evaluation is the fenced block, or what follows its first line. */
  ghost predicate RunRequestFrom(block: string, req: RunRequest) {
    req.code == block || exists line :: '\n' !in line && block == line + "\n" + req.code
  }

  /** The fenced block lies between the only two fences and holds no fence itself. */
  lemma {:induction false} BlockBetweenFences(content: string)
    requires Text.Count(content, FENCE) == 2
    ensures var pieces := Text.Split(content, FENCE);
      |pieces| == 3 && content == pieces[0] + FENCE + Block(content) + FENCE + pieces[2]
    ensures forall i :: !Text.OccursAt(Block(content), FENCE, i)
  {
    Text.SplitCount(content, FENCE);
    Text.SplitJoin(content, FENCE);
    Text.JoinThree(Text.Split(content, FENCE), FENCE);
    forall i ensures !Text.OccursAt(Block(content), FENCE, i) {
      Text.SplitPiecesFree(content, FENCE, 1, i);
    }
  }

  /** A message made of one fenced block and nothing else is refused as written and parsed when corrected. */
  lemma BareBlockRefused()
    ensures ParseRunCommand("```x```") == Failure(PrefixIndexError)
    ensures ParseRunCommandFixed("```x```") == Success(RunRequest(None, "x"))
  {
    var content := "```x```";
    assert Text.OccursAt(content, FENCE, 0) && Text.OccursAt(content, FENCE, 4);
    assert Text.FindFrom(content, FENCE, 3) == 4 by {
      assert content[3] == 'x' && FENCE[0] == '`';
      assert content[3..6][0] != FENCE[0];
    }
    assert content[7..] == "" && content[3..4] == "x" && content[0..0] == "";
    assert Text.SplitFrom(content, FENCE, 7) == [""];
    assert Text.SplitFrom(content, FENCE, 3) == ["x", ""];
    assert Text.SplitFrom(content, FENCE, 0) == ["", "x", ""];
  }

  /** With the corrected test, such a message parses: its code is taken from the block. */
  lemma EmptyPrefixParsesFixed(content: string)
    requires Text.Count(content, FENCE) == 2
    requires Prefix(content) == ""
    ensures ParseRunCommandFixed(content).Success?
    ensures ParseRunCommandFixed(content).value.lang == LeadingLanguage(Block(content)).0
    ensures ParseRunCommandFixed(content).value.code == LeadingLanguage(Block(content)).1
  {
    Text.SplitCount(content, FENCE);
  }

  /** `int(MAX_EMBED_FIELD_SIZE / 2)`, half of 1024 */
  const TAIL_SIZE := 512

  /** What an embed field shows of an output stream: all of it when shorter
      than `MAX_EMBED_FIELD_SIZE - 10`, otherwise its last `TAIL_SIZE`
      characters with the whitespace at both ends removed. */
  function ShownOutput(output: string): (shown: string)
    ensures |output| < MAX_EMBED_FIELD_SIZE - 10 ==> shown == output
    ensures |output| >= MAX_EMBED_FIELD_SIZE - 10 ==>
      var start := |output| - TAIL_SIZE + Text.LeadingSpaces(output[|output| - TAIL_SIZE..]);
      |shown| <= TAIL_SIZE && start + |shown| <= |output| && shown == output[start..start + |shown|]
      && (shown == [] || (!Text.IsSpace(shown[0]) && !Text.IsSpace(shown[|shown| - 1])))
      && forall i :: |output| - TAIL_SIZE <= i < |output| && !(start <= i < start + |shown|) ==> Text.IsSpace(output[i])
  {
    if |output| < MAX_EMBED_FIELD_SIZE - 10 then output
    else
      var tail := output[|output| - TAIL_SIZE..];
      var shown := Text.Strip(tail);
      Text.SliceOfSlice(output, |output| - TAIL_SIZE, Text.LeadingSpaces(tail), Text.LeadingSpaces(tail) + |shown|);
      assert forall i :: |output| - TAIL_SIZE <= i < |output| ==> output[i] == tail[i - (|output| - TAIL_SIZE)];
      shown
  }

  datatype Field = Field(name: string, value: string)

  /** Lines 146-163 for one stream (`stream` is `stdout` or `stderr`): the
      field added to the embed, and whether the full output is attached as a file. */
  function OutputField(stream: string, output: string, ephemeral: bool): (r: (Field, bool))
    ensures |r.0.value| <= MAX_EMBED_FIELD_SIZE
    ensures r.1 <==> |output| >= MAX_EMBED_FIELD_SIZE - 10 && !ephemeral
    ensures |output| < MAX_EMBED_FIELD_SIZE - 10 ==> r.0 == Field(stream, FENCE + "\n" + output + FENCE)
    ensures |output| >= MAX_EMBED_FIELD_SIZE - 10 ==> r.0.value == FENCE + "\n...\n" + ShownOutput(output) + FENCE
  {
    var shown := ShownOutput(output);
    if |output| < MAX_EMBED_FIELD_SIZE - 10 then
      (Field(stream, FENCE + "\n" + shown + FENCE), false)
    else if ephemeral then
      (Field(stream + " (truncated, run in visible mode to get files)", FENCE + "\n...\n" + shown + FENCE), false)
    else
      (Field(stream + " (truncated)", FENCE + "\n...\n" + shown + FENCE), true)
  }
}
