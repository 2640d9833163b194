/** The preview of a paste: its leading lines within a byte budget, repaired to valid UTF-8, with a
    count of the lines left out. */
module Preview {
  import opened Common
  import opened Streams
  import opened Utf8

  const BUFFER := 32 * 1024

  // ---- Lines ----

  function Newlines(s: Bytes): nat {
    if s == [] then 0 else (if s[0] == NEWLINE then 1 else 0) + Newlines(s[1..])
  }

  function PasteLineCount(s: Bytes): nat {
    if s == [] then 0 else Newlines(s) + (if s[|s| - 1] != NEWLINE then 1 else 0)
  }

  /** A line that ends counts as one, and so does a last one that does not. */
  lemma CountsLines(line: Bytes, rest: Bytes)
    requires NEWLINE !in line
    ensures PasteLineCount(line + [NEWLINE] + rest) == 1 + PasteLineCount(rest)
    ensures PasteLineCount(line) == if line == [] then 0 else 1
  {
    NoNewlines(line);
    NewlinesAppend(line + [NEWLINE], rest);
    NewlinesAppend(line, [NEWLINE]);
    assert [NEWLINE][1..] == [];
    var s := line + [NEWLINE] + rest;
    assert rest != [] ==> s[|s| - 1] == rest[|rest| - 1];
  }

  lemma {:induction false} NoNewlines(s: Bytes)
    requires NEWLINE !in s
    ensures Newlines(s) == 0
  {
    if s != [] {
      NoNewlines(s[1..]);
    }
  }

  /** Position of the first newline, or -1. */
  function IndexNewline(s: Bytes): (i: int)
    ensures i == -1 ==> Newlines(s) == 0
    ensures i != -1 ==> 0 <= i < |s| && s[i] == NEWLINE && Newlines(s[..i]) == 0
  {
    if s == [] then -1
    else if s[0] == NEWLINE then 0
    else
      var i := IndexNewline(s[1..]);
      assert i >= 0 ==> s[..i + 1][1..] == s[1..][..i];
      if i < 0 then -1 else i + 1
  }

  lemma {:induction false} NewlinesAppend(a: Bytes, b: Bytes)
    ensures Newlines(a + b) == Newlines(a) + Newlines(b)
  {
    if a == [] {
      assert a + b == b;
    } else {
      assert (a + b)[1..] == a[1..] + b;
      NewlinesAppend(a[1..], b);
    }
  }

  /** The number of lines of a prefix that stops before the end is at most that of the whole. */
  lemma PrefixHasFewerLines(a: Bytes, s: Bytes)
    requires a <= s
    ensures PasteLineCount(a) <= PasteLineCount(s)
  {
    assert s == a + s[|a|..];
    NewlinesAppend(a, s[|a|..]);
    if |a| < |s| && Newlines(s[|a|..]) == 0 {
      LastOfNone(s[|a|..]);
    }
  }

  lemma {:induction false} LastOfNone(s: Bytes)
    requires s != [] && Newlines(s) == 0
    ensures s[|s| - 1] != NEWLINE
  {
    if |s| > 1 {
      LastOfNone(s[1..]);
    }
  }

  /** A prefix that ends just before the n-th newline is determined by that. */
  lemma NthNewlineIsUnique(s: Bytes, i: nat, j: nat)
    requires i < |s| && j < |s| && s[i] == NEWLINE && s[j] == NEWLINE
    requires Newlines(s[..i]) == Newlines(s[..j])
    ensures i == j
  {
    if i < j {
      assert s[..j] == s[..i] + s[i..j];
      NewlinesAppend(s[..i], s[i..j]);
    } else if j < i {
      assert s[..i] == s[..j] + s[j..i];
      NewlinesAppend(s[..j], s[j..i]);
    }
  }

  // ---- splitPastePreview ----

  /** `preview` is the first `maxLines` lines of `content`, without the newline that ends them. */
  predicate IsSplit(content: Bytes, maxLines: int, preview: Bytes, remaining: Bytes, truncated: bool) {
    if truncated then
      && maxLines > 0 && PasteLineCount(content) > maxLines
      && preview + remaining == content
      && remaining != [] && remaining[0] == NEWLINE && Newlines(preview) == maxLines - 1
    else
      preview == content && remaining == [] && (maxLines <= 0 || PasteLineCount(content) <= maxLines)
  }

  lemma SplitIsUnique(content: Bytes, maxLines: int, p: Bytes, r: Bytes, t: bool, p': Bytes, r': Bytes, t': bool)
    requires IsSplit(content, maxLines, p, r, t) && IsSplit(content, maxLines, p', r', t')
    ensures p == p' && r == r' && t == t'
  {
    if t {
      assert content[..|p|] == p && content[|p|] == r[0];
      assert content[..|p'|] == p' && content[|p'|] == r'[0];
      NthNewlineIsUnique(content, |p|, |p'|);
      assert content[|p|..] == r && content[|p'|..] == r';
    }
  }

  lemma SlicePrefix(content: Bytes, from: nat, n: nat)
    requires from + n <= |content|
    ensures content[..from] + content[from..][..n] == content[..from + n]
  {
  }

  lemma OneMoreByte(content: Bytes, p: nat)
    requires p < |content|
    ensures Newlines(content[..p + 1]) == Newlines(content[..p]) + if content[p] == NEWLINE then 1 else 0
  {
    assert content[..p + 1] == content[..p] + [content[p]];
    NewlinesAppend(content[..p], [content[p]]);
    assert [content[p]][1..] == [];
  }

  /** With more lines than `line` there is another newline, and it ends the next one. */
  lemma NextNewline(content: Bytes, separator: nat)
    requires separator <= |content| && Newlines(content[..separator]) < Newlines(content)
    ensures Newlines(content[separator..]) > 0
  {
    assert content == content[..separator] + content[separator..];
    NewlinesAppend(content[..separator], content[separator..]);
  }

  lemma LineEnds(content: Bytes, separator: nat, next: nat)
    requires separator <= |content| && next < |content[separator..]| && content[separator..][next] == NEWLINE
    requires Newlines(content[separator..][..next]) == 0
    ensures content[separator + next] == NEWLINE
    ensures Newlines(content[..separator + next]) == Newlines(content[..separator])
    ensures Newlines(content[..separator + next + 1]) == Newlines(content[..separator]) + 1
  {
    SlicePrefix(content, separator, next);
    NewlinesAppend(content[..separator], content[separator..][..next]);
    OneMoreByte(content, separator + next);
  }

  /** The newline at `at` is the one that ends line number `line`. */
  predicate EndsLine(content: Bytes, at: nat, line: nat) {
    at < |content| && content[at] == NEWLINE && Newlines(content[..at]) == line - 1
  }

  lemma SplitHere(content: Bytes, maxLines: int, at: nat)
    requires 0 < maxLines < PasteLineCount(content) && EndsLine(content, at, maxLines)
    ensures IsSplit(content, maxLines, content[..at], content[at..], true)
  {
    assert content[..at] + content[at..] == content;
  }

  method SplitPastePreview(content: Bytes, maxLines: int) returns (preview: Bytes, remaining: Bytes, truncated: bool)
    ensures IsSplit(content, maxLines, preview, remaining, truncated)
  {
    if maxLines <= 0 || content == [] {
      return content, [], false;
    }
    var lineCount := Newlines(content);
    if content[|content| - 1] != NEWLINE {
      lineCount := lineCount + 1;
    }
    if lineCount <= maxLines {
      return content, [], false;
    }
    assert lineCount == PasteLineCount(content);
    var separator := 0;
    for line := 0 to maxLines
      invariant 0 <= separator <= |content|
      invariant Newlines(content[..separator]) == line
      invariant line > 0 ==> separator > 0 && EndsLine(content, separator - 1, line)
    {
      NextNewline(content, separator);
      var next := IndexNewline(content[separator..]);
      assert next >= 0;  // the source's "newline not found" return is unreachable
      LineEnds(content, separator, next);
      separator := separator + next + 1;
    }
    SplitHere(content, maxLines, separator - 1);
    preview, remaining, truncated := content[..separator - 1], content[separator - 1..], true;
  }

  /** What a truncated split shows: `maxLines` lines, or one fewer when the last of them is empty. */
  lemma TruncatedLineCount(content: Bytes, maxLines: int, preview: Bytes, remaining: Bytes)
    requires IsSplit(content, maxLines, preview, remaining, true)
    ensures PasteLineCount(preview) ==
      if preview != [] && preview[|preview| - 1] != NEWLINE then maxLines else maxLines - 1
  {
  }

  // ---- Repair of a sample that the byte budget may have cut ----

  /** Repair that stops before a character the cut has left incomplete. */
  function RepairCut(s: Bytes): (r: Bytes)
    ensures |r| <= |s|
    decreases |s|
  {
    if s == [] || !FullRune(s) then []
    else if Undecodable(s) then [QUESTION] + RepairCut(s[1..])
    else s[..DecodeRune(s).size] + RepairCut(s[DecodeRune(s).size..])
  }

  function Repaired(s: Bytes, byteTruncated: bool): Bytes {
    if byteTruncated then RepairCut(s) else Repair(s)
  }

  /** What one round of the loop leaves in place of the character or byte at the front. */
  function Settled(s: Bytes): Bytes {
    if Undecodable(s) then [QUESTION] else s[..DecodeRune(s).size]
  }

  lemma SettledSize(s: Bytes)
    requires s != []
    ensures |Settled(s)| == DecodeRune(s).size && 1 <= |Settled(s)| <= |s|
  {
  }

  /** One round of the loop below: `front` is settled, `rest` is still to do. */
  lemma RepairedNext(front: Bytes, rest: Bytes, byteTruncated: bool)
    requires rest != [] && (byteTruncated ==> FullRune(rest))
    ensures 1 <= |Settled(rest)| <= |rest|
    ensures front + Repaired(rest, byteTruncated) ==
      front + Settled(rest) + Repaired(rest[|Settled(rest)|..], byteTruncated)
  {
    SettledSize(rest);
    var after := Repaired(rest[|Settled(rest)|..], byteTruncated);
    Regroup(front, Settled(rest), after);
  }

  /** One round in place: what stands before and after the settled part. */
  lemma SettledInPlace(s: Bytes, kept: nat, s': Bytes)
    requires kept < |s| && s' == if Undecodable(s[kept..]) then s[kept := QUESTION] else s
    ensures var n := |Settled(s[kept..])|;
      && n == DecodeRune(s[kept..]).size && kept < kept + n <= |s'|
      && s'[..kept + n] == s[..kept] + Settled(s[kept..]) && s'[kept + n..] == s[kept..][n..]
  {
    SettledSize(s[kept..]);
  }

  lemma NothingLeft(front: Bytes, rest: Bytes, byteTruncated: bool)
    requires rest == [] || (byteTruncated && !FullRune(rest))
    ensures front + Repaired(rest, byteTruncated) == front
  {
    assert front + [] == front;
  }

  lemma Halves(s: Bytes, front: Bytes, rest: Bytes)
    requires s == front + rest
    ensures s[..|front|] == front && s[|front|..] == rest
  {
  }

  /** Whether the loop below stops: what is left is less than a character. */
  method StopsAt(a: array<byte>, at: nat, byteTruncated: bool, ghost front: Bytes, ghost rest: Bytes)
    returns (stop: bool)
    requires at == |front| && a[..] == front + rest
    ensures stop == (byteTruncated && !FullRune(rest))
  {
    Halves(a[..], front, rest);
    assert a[at..] == a[..][at..];
    stop := byteTruncated && !FullRune(a[at..]);
  }

  /** The body of the loop below. */
  method RepairAt(a: array<byte>, at: nat, ghost front: Bytes, ghost rest: Bytes) returns (size: nat)
    requires at == |front| < a.Length && a[..] == front + rest
    modifies a
    ensures size == |Settled(rest)| && 0 < size <= |rest|
    ensures a[..] == front + Settled(rest) + rest[size..]
  {
    ghost var was := a[..];
    Halves(was, front, rest);
    assert a[at..] == was[at..];
    var rune := DecodeRune(a[at..]);
    if rune == Rune(RUNE_ERROR, 1) {
      a[at] := QUESTION;
    }
    SettledInPlace(was, at, a[..]);
    size := rune.size;
    assert a[..] == a[..][..at + size] + a[..][at + size..];
  }

  /** The loop over the sample, in place. */
  method RepairInPlace(a: array<byte>, byteTruncated: bool) returns (kept: nat)
    modifies a
    ensures kept <= a.Length && a[..kept] == Repaired(old(a[..]), byteTruncated)
  {
    kept := 0;
    ghost var target := Repaired(a[..], byteTruncated);
    ghost var front: Bytes, rest := [], a[..];
    while kept < a.Length
      invariant kept == |front| && a[..] == front + rest
      invariant front + Repaired(rest, byteTruncated) == target
      decreases a.Length - kept
    {
      var stop := StopsAt(a, kept, byteTruncated, front, rest);
      if stop {
        break;
      }
      RepairedNext(front, rest, byteTruncated);
      var size := RepairAt(a, kept, front, rest);
      kept := kept + size;
      front, rest := front + Settled(rest), rest[size..];
    }
    NothingLeft(front, rest, byteTruncated);
    Halves(a[..], front, rest);
    assert a[..kept] == a[..][..kept];
  }

  /** Cutting and repairing commute: what is kept of a cut is a prefix of the repair of the whole,
      and at most three bytes of the cut are lost. */
  lemma {:induction false} CutCommutesWithRepair(cut: Bytes, whole: Bytes)
    requires cut <= whole
    ensures RepairCut(cut) <= Repair(whole) && |RepairCut(cut)| + 3 >= |cut|
    decreases |cut|
  {
    if cut == [] {
    } else if !FullRune(cut) {
      PartialRuneIsShort(cut);
    } else {
      FullRuneDecides(cut, whole);
      var n := DecodeRune(cut).size;
      assert cut[..n] == whole[..n];
      CutCommutesWithRepair(cut[n..], whole[n..]);
    }
  }

  /** And what is lost of a cut is nothing, or the beginning of a character that the cut left incomplete. */
  lemma {:induction false} CutLosesPartialRune(s: Bytes)
    ensures RepairCut(s) == Repair(s[..|RepairCut(s)|])
    ensures var lost := s[|RepairCut(s)|..]; lost == [] || !FullRune(lost)
    decreases |s|
  {
    if s != [] && FullRune(s) {
      var n := DecodeRune(s).size;
      CutLosesPartialRune(s[n..]);
      var k := |RepairCut(s[n..])|;
      assert |RepairCut(s)| == n + k;
      assert s[n..][k..] == s[n + k..];
      assert s[..n + k][n..] == s[n..][..k] && s[..n + k][..n] == s[..n];
      SameRune(s, s[..n + k]);
    }
  }

  /** The first character, or the first byte of junk, is decided by what it takes. */
  lemma SameRune(s: Bytes, cut: Bytes)
    requires s != [] && cut <= s && DecodeRune(s).size <= |cut|
    ensures cut != [] && DecodeRune(cut) == DecodeRune(s) && (Undecodable(cut) <==> Undecodable(s))
  {
    assert forall i :: 0 <= i < |cut| ==> cut[i] == s[i];
  }

  lemma {:induction false} RepairCutIsValid(s: Bytes)
    ensures ValidUtf8(RepairCut(s))
    decreases |s|
  {
    if s != [] && FullRune(s) {
      var n := DecodeRune(s).size;
      RepairCutIsValid(s[n..]);
      var head := if Undecodable(s) then [QUESTION] else s[..n];
      assert RepairCut(s) == head + RepairCut(s[n..]);
      assert RepairCut(s)[|head|..] == RepairCut(s[n..]);
      assert forall i :: 0 <= i < |head| ==> RepairCut(s)[i] == head[i];
    }
  }

  /** Valid text stays valid when cut just before a newline. */
  lemma {:induction false} CutBeforeNewlineIsValid(s: Bytes, i: nat)
    requires ValidUtf8(s) && i < |s| && s[i] == NEWLINE
    ensures ValidUtf8(s[..i])
    decreases |s|
  {
    var n := Announced(s[0]);
    if i > 0 {
      assert i >= n;
      CutBeforeNewlineIsValid(s[n..], i - n);
      assert s[..i][n..] == s[n..][..i - n];
      assert forall j :: 0 <= j < n ==> s[..i][j] == s[j];
    }
  }

  // ---- readPastePreview ----

  /** The part of the content that the line cut works on. */
  function SampleOf(content: Bytes, maxBytes: int): Bytes
    requires maxBytes > 0
  {
    if |content| > maxBytes then RepairCut(content[..maxBytes]) else Repair(content)
  }

  /** What a preview of `content` must be, whichever way the bytes arrived. */
  predicate IsPreview(content: Bytes, maxLines: int, maxBytes: int, text: Bytes, truncated: bool, remainingLines: int)
    requires maxBytes > 0
  {
    var sample := SampleOf(content, maxBytes);
    var lineTruncated := PasteLineCount(sample) > maxLines > 0;
    var raw := PasteLineCount(content) - PasteLineCount(text);
    && text <= sample
    && IsSplit(sample, maxLines, text, sample[|text|..], lineTruncated)
    && truncated == (|content| > maxBytes || lineTruncated)
    && remainingLines == if truncated && raw < 1 then 1 else raw
  }

  /** What the reading loop carries: the leading bytes, the totals, the last byte. */
  datatype Tally = Tally(sample: Bytes, totalBytes: nat, totalNewlines: nat, lastByte: byte)

  predicate Tallied(seen: Bytes, limit: nat, t: Tally) {
    && t.totalBytes == |seen| && t.totalNewlines == Newlines(seen)
    && (seen != [] ==> t.lastByte == seen[|seen| - 1])
    && t.sample == seen[..Min(|seen|, limit)]
  }

  /** Count a chunk, and keep of it what still fits into the sample. */
  method AddChunk(ghost seen: Bytes, t: Tally, chunk: Bytes, limit: nat) returns (t': Tally)
    requires Tallied(seen, limit, t)
    ensures Tallied(seen + chunk, limit, t')
  {
    t' := t;
    if |chunk| > 0 {
      NewlinesAppend(seen, chunk);
      var sample := t.sample;
      if |sample| < limit {
        var remaining := limit - |sample|;
        if remaining > |chunk| {
          remaining := |chunk|;
        }
        sample := sample + chunk[..remaining];
      }
      t' := Tally(sample, t.totalBytes + |chunk|, t.totalNewlines + Newlines(chunk), chunk[|chunk| - 1]);
    } else {
      assert seen + chunk == seen;
    }
  }

  /** The reading loop, over the whole stream. */
  method ReadSample(reader: Source, limit: nat) returns (t: Tally, failed: bool)
    modifies reader
    ensures failed == (Ending(old(reader.script)) == Broken)
    ensures !failed ==> Tallied(Content(old(reader.script)), limit, t)
  {
    t := Tally([], 0, 0, 0);
    ghost var ending := Ending(reader.script);
    ghost var seen: Bytes, left: Bytes := [], Content(reader.script);
    var status := More;
    while status == More
      invariant status == More ==> left == Content(reader.script) && ending == Ending(reader.script)
      invariant status != More ==> left == [] && status == ending
      invariant seen + left == Content(old(reader.script)) && ending == Ending(old(reader.script))
      invariant Tallied(seen, limit, t)
      decreases status == More, Work(reader.script)
    {
      var chunk, s := reader.Read(BUFFER);
      t := AddChunk(seen, t, chunk, limit);
      ghost var rest := if s == More then Content(reader.script) else [];
      assert left == chunk + rest;
      Regroup(seen, chunk, rest);
      seen, left, status := seen + chunk, rest, s;
    }
    assert seen == seen + left;
    failed := status == Broken;
  }

  method ReadPastePreview(reader: Source, maxLines: int, maxBytes: int)
    returns (text: Bytes, truncated: bool, remainingLines: int, failed: bool)
    modifies reader
    ensures maxLines <= 0 || maxBytes <= 0 ==> text == [] && !truncated && remainingLines == 0 && !failed
    ensures maxLines > 0 && maxBytes > 0 ==>
      && failed == (Ending(old(reader.script)) == Broken)
      && (if failed then text == [] && !truncated && remainingLines == 0
          else IsPreview(Content(old(reader.script)), maxLines, maxBytes, text, truncated, remainingLines))
  {
    if maxLines <= 0 || maxBytes <= 0 {
      return [], false, 0, false;
    }
    ghost var whole := Content(reader.script);
    var tally, broken := ReadSample(reader, maxBytes + 1);
    if broken {
      return [], false, 0, true;
    }
    var sample := tally.sample;
    var byteTruncated := tally.totalBytes > maxBytes;
    if byteTruncated {
      sample := sample[..maxBytes];
    }
    assert sample == if byteTruncated then whole[..maxBytes] else whole;
    var a := new byte[|sample|](i requires 0 <= i < |sample| => sample[i]);
    assert a[..] == sample;
    var kept := RepairInPlace(a, byteTruncated);
    assert a[..kept] == SampleOf(whole, maxBytes);
    var rest, lineTruncated;
    text, rest, lineTruncated := SplitPastePreview(a[..kept], maxLines);
    assert rest == a[..kept][|text|..];
    truncated := byteTruncated || lineTruncated;
    var totalLines := tally.totalNewlines;
    if tally.totalBytes > 0 && tally.lastByte != NEWLINE {
      totalLines := totalLines + 1;
    }
    remainingLines := totalLines - PasteLineCount(text);
    if truncated && remainingLines < 1 {
      remainingLines := 1;
    }
    failed := false;
  }

  // ---- What a preview promises ----

  lemma {:induction false} RepairKeepsLineCount(s: Bytes)
    ensures Newlines(Repair(s)) == Newlines(s) && PasteLineCount(Repair(s)) == PasteLineCount(s)
  {
    forall i | 0 <= i < |s| ensures Repair(s)[i] == NEWLINE <==> s[i] == NEWLINE {
      RepairKeepsNewlines(s, i);
    }
    SameNewlines(s, Repair(s));
  }

  lemma {:induction false} SameNewlines(s: Bytes, r: Bytes)
    requires |s| == |r| && forall i :: 0 <= i < |s| ==> (r[i] == NEWLINE <==> s[i] == NEWLINE)
    ensures Newlines(s) == Newlines(r)
  {
    if s != [] {
      assert forall i :: 0 <= i < |s| - 1 ==> r[1..][i] == r[i + 1] && s[1..][i] == s[i + 1];
      SameNewlines(s[1..], r[1..]);
    }
  }

  /** Every preview is valid UTF-8 within both budgets and a prefix of the repaired content. It is called
      truncated exactly when that prefix is not all of it, which is exactly when the content is over one
      of the budgets. The number of lines left out is exact, but for a cut inside the last line, which
      counts as one; it is zero exactly when nothing was cut. */
  lemma PreviewGuarantees(content: Bytes, maxLines: int, maxBytes: int, text: Bytes, truncated: bool,
                          remainingLines: int)
    requires maxLines > 0 && maxBytes > 0 && IsPreview(content, maxLines, maxBytes, text, truncated, remainingLines)
    ensures ValidUtf8(text) && |text| <= maxBytes
    ensures text <= Repair(content)
    ensures truncated <==> text != Repair(content)
    ensures truncated <==> |content| > maxBytes || PasteLineCount(content) > maxLines
    ensures PasteLineCount(text) <= PasteLineCount(content) && PasteLineCount(text) <= maxLines
    ensures PasteLineCount(text) < PasteLineCount(content) ==>
      remainingLines == PasteLineCount(content) - PasteLineCount(text)
    ensures PasteLineCount(text) == PasteLineCount(content) ==> remainingLines == if truncated then 1 else 0
  {
    if |content| <= maxBytes {
      RepairKeepsLineCount(content);
    }
    var cut := if |content| > maxBytes then content[..maxBytes] else content;
    var sample := SampleOf(content, maxBytes);
    RepairCutIsValid(cut);
    RepairIsValid(cut);
    CutCommutesWithRepair(cut, content);
    assert text <= sample <= Repair(content);
    if |text| < |sample| {
      CutBeforeNewlineIsValid(sample, |text|);
      assert sample[..|text|] == text;
    }
    RepairKeepsLineCount(content);
    PrefixHasFewerLines(text, Repair(content));
  }

  /** A truncated preview ends where it has to: just before the newline that ends line `maxLines`; or at the
      end of the byte budget, or less than a character before it, where a character does not fit. */
  lemma PreviewIsMaximal(content: Bytes, maxLines: int, maxBytes: int, text: Bytes, remainingLines: int)
    requires maxLines > 0 && maxBytes > 0 && IsPreview(content, maxLines, maxBytes, text, true, remainingLines)
    ensures |text| < |content| && |text| <= maxBytes
    ensures
      || (Newlines(text) == maxLines - 1 && content[|text|] == NEWLINE)
      || (maxBytes < |content| && (|text| == maxBytes || !FullRune(content[|text|..maxBytes])))
  {
    var sample := SampleOf(content, maxBytes);
    if |content| > maxBytes {
      CutCommutesWithRepair(content[..maxBytes], content);
      CutLosesPartialRune(content[..maxBytes]);
      assert content[..maxBytes][|sample|..] == content[|sample|..maxBytes];
    }
    if |text| < |sample| {
      assert sample[|text|] == sample[|text|..][0];
      RepairKeepsNewlines(content, |text|);
    }
  }

  /** The preview of a content is unique: it cannot depend on how the reader sliced the bytes. */
  lemma PreviewIsUnique(content: Bytes, maxLines: int, maxBytes: int,
                        text: Bytes, truncated: bool, remaining: int, text': Bytes, truncated': bool, remaining': int)
    requires maxBytes > 0
    requires IsPreview(content, maxLines, maxBytes, text, truncated, remaining)
    requires IsPreview(content, maxLines, maxBytes, text', truncated', remaining')
    ensures text == text' && truncated == truncated' && remaining == remaining'
  {
    var sample := SampleOf(content, maxBytes);
    var lineTruncated := PasteLineCount(sample) > maxLines > 0;
    SplitIsUnique(sample, maxLines, text, sample[|text|..], lineTruncated, text', sample[|text'|..], lineTruncated);
  }
}
