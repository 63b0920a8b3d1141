/**
 * The two-pass playlist scanner of the status handler.
 *
 * Pass 1 reads the manifest line by line: it checks every `#EXT-X-VERSION`
 * line, counts the `#EXTINF` lines and stops at the first line that is
 * exactly `#EXT-X-ENDLIST` (tags of section 4.3 of RFC 8216, matched by
 * prefix only). The count is a 16-bit unsigned counter.
 *
 * Pass 2 allocates `count` empty slots and reads lines two at a time: when
 * the first line of a pair carries the `#EXTINF` prefix and the second line
 * is not empty, the second line is stored in the next free slot. Pass 2 does
 * not look for the terminator and does not check versions.
 */
module Playlist {
  import opened Common

  const VersionTag := "#EXT-X-VERSION"
  const SegmentTag := "#EXTINF"
  const EndListTag := "#EXT-X-ENDLIST"
  const SupportedVersion := "3"
  /** Where the version number starts: after the tag and one separator. */
  const VersionStart := 15
  /** `count` is a `uint16`: an increment past 65535 wraps to 0. */
  const CounterModulus := 65536

  predicate IsSegmentTag(line: string) {
    HasPrefix(line, SegmentTag)
  }

  /**
   * What the version check does with one examined line: nothing for a line
   * without the tag, a slice panic for a bare 14-character tag, and a
   * rejection when the text from index 15 on is not "3".
   */
  function VersionFault(line: string): Option<Failure> {
    if !HasPrefix(line, VersionTag) then None
    else if |line| < VersionStart then Some(Panicked(VersionSlice(line)))
    else if line[VersionStart..] != SupportedVersion then Some(UnsupportedVersion(line))
    else None
  }

  /** A version line is the tag, any separator and the version text. */
  lemma VersionLine(sep: char, version: string)
    ensures VersionFault(VersionTag) == Some(Panicked(VersionSlice(VersionTag)))
    ensures VersionFault(VersionTag + [sep] + version)
         == if version == SupportedVersion then None
            else Some(UnsupportedVersion(VersionTag + [sep] + version))
  {
    var line := VersionTag + [sep] + version;
    assert line[..|VersionTag|] == VersionTag;
    assert line[VersionStart..] == version;
  }

  /** The terminator is neither a version line nor a segment tag. */
  lemma EndListIsPlain()
    ensures !HasPrefix(EndListTag, VersionTag) && !IsSegmentTag(EndListTag)
    ensures VersionFault(EndListTag) == None
  {
    assert EndListTag[7] != VersionTag[7];
    assert EndListTag[4] != SegmentTag[4];
  }

  /** Index of the first line exactly equal to the terminator, or `|lines|` without one. */
  function EndIndex(lines: seq<string>): (k: nat)
    ensures k <= |lines|
    ensures forall j :: 0 <= j < k ==> lines[j] != EndListTag
    ensures k < |lines| ==> lines[k] == EndListTag
  {
    if lines == [] then 0
    else if lines[0] == EndListTag then 0
    else 1 + EndIndex(lines[1..])
  }

  /** Number of lines that carry the `#EXTINF` prefix. */
  function CountTags(lines: seq<string>): nat {
    if lines == [] then 0
    else (if IsSegmentTag(lines[0]) then 1 else 0) + CountTags(lines[1..])
  }

  /** The failure of the first line whose version check fails, if any. */
  function FirstFault(lines: seq<string>): Option<Failure> {
    if lines == [] then None
    else if VersionFault(lines[0]).Some? then VersionFault(lines[0])
    else FirstFault(lines[1..])
  }

  /** `FirstFault` finds the earliest failing line, and only fails if one does. */
  lemma {:induction false} FirstFaultMeaning(lines: seq<string>)
    ensures FirstFault(lines).None? <==> forall j :: 0 <= j < |lines| ==> VersionFault(lines[j]).None?
    ensures FirstFault(lines).Some? ==>
      exists j :: 0 <= j < |lines| && VersionFault(lines[j]) == FirstFault(lines)
                  && forall i :: 0 <= i < j ==> VersionFault(lines[i]).None?
  {
    if lines != [] && VersionFault(lines[0]).None? {
      FirstFaultMeaning(lines[1..]);
      assert forall j :: 1 <= j < |lines| ==> lines[j] == lines[1..][j - 1];
      if FirstFault(lines).Some? {
        var j :| 0 <= j < |lines[1..]| && VersionFault(lines[1..][j]) == FirstFault(lines)
                 && forall i :: 0 <= i < j ==> VersionFault(lines[1..][i]).None?;
        assert VersionFault(lines[j + 1]) == FirstFault(lines);
      }
    }
  }

  /**
   * Pass 1 as a whole. Only the lines before the first terminator are
   * examined; the first failing version check decides the failure;
   * otherwise the result is the wrapped number of `#EXTINF` lines.
   */
  function ScanResult(lines: seq<string>): Result<nat> {
    Verdict(lines[..EndIndex(lines)])
  }

  /** The verdict of pass 1 on the examined lines. */
  function Verdict(body: seq<string>): Result<nat> {
    match FirstFault(body)
    case Some(f) => Err(f)
    case None => Ok(CountTags(body) % CounterModulus)
  }

  /**
   * Pass 1 accepts exactly when no line before the terminator fails the
   * version check, rejects with the failure of the first one that does, and
   * otherwise yields a count below 65536.
   */
  lemma ScanResultMeaning(lines: seq<string>)
    ensures ScanResult(lines).Ok? <==> forall j :: 0 <= j < EndIndex(lines) ==> VersionFault(lines[j]).None?
    ensures ScanResult(lines).Err? ==>
      exists j :: 0 <= j < EndIndex(lines) && VersionFault(lines[j]) == Some(ScanResult(lines).failure)
                  && forall i :: 0 <= i < j ==> VersionFault(lines[i]).None?
    ensures ScanResult(lines).Ok? ==> ScanResult(lines).value < CounterModulus
  {
    var body := lines[..EndIndex(lines)];
    FirstFaultMeaning(body);
    assert forall j :: 0 <= j < |body| ==> body[j] == lines[j];
  }

  lemma {:induction false} CountTagsAppend(a: seq<string>, b: seq<string>)
    ensures CountTags(a + b) == CountTags(a) + CountTags(b)
  {
    if a != [] {
      assert (a + b)[1..] == a[1..] + b;
      CountTagsAppend(a[1..], b);
    } else {
      assert a + b == b;
    }
  }

  lemma {:induction false} FirstFaultAppend(a: seq<string>, b: seq<string>)
    ensures FirstFault(a + b) == if FirstFault(a).Some? then FirstFault(a) else FirstFault(b)
  {
    if a != [] {
      assert (a + b)[1..] == a[1..] + b;
      FirstFaultAppend(a[1..], b);
    } else {
      assert a + b == b;
    }
  }

  /** Extending the examined prefix by one line. */
  lemma ScanStep(lines: seq<string>, k: nat)
    requires k < |lines|
    ensures CountTags(lines[..k + 1]) == CountTags(lines[..k]) + (if IsSegmentTag(lines[k]) then 1 else 0)
    ensures FirstFault(lines[..k + 1]) == if FirstFault(lines[..k]).Some? then FirstFault(lines[..k]) else VersionFault(lines[k])
  {
    assert lines[..k + 1] == lines[..k] + [lines[k]];
    CountTagsAppend(lines[..k], [lines[k]]);
    FirstFaultAppend(lines[..k], [lines[k]]);
  }

  /** A failing version check on an examined line decides pass 1. */
  lemma FaultDecides(lines: seq<string>, k: nat)
    requires k < |lines| && k <= EndIndex(lines)
    requires FirstFault(lines[..k]) == None
    requires VersionFault(lines[k]).Some?
    ensures ScanResult(lines) == Err(VersionFault(lines[k]).value)
  {
    EndListIsPlain();
    var e := EndIndex(lines);
    assert k < e;
    assert lines[..e] == lines[..k] + lines[k..e];
    FirstFaultAppend(lines[..k], lines[k..e]);
    assert lines[k..e][0] == lines[k];
  }

  /**
   * Pass 1 (the first scanning loop): counts with a wrapping 16-bit counter
   * and returns at the first failing version check.
   */
  method ScanManifest(lines: seq<string>) returns (r: Result<nat>)
    ensures r == ScanResult(lines)
  {
    var count := 0;
    var k := 0;
    while k < |lines|
      invariant k <= EndIndex(lines)
      invariant FirstFault(lines[..k]) == None
      invariant count == CountTags(lines[..k]) % CounterModulus
    {
      var text := lines[k];
      if HasPrefix(text, VersionTag) {
        if |text| < VersionStart {
          FaultDecides(lines, k);
          return Err(Panicked(VersionSlice(text)));
        }
        var version := text[VersionStart..];
        if version != SupportedVersion {
          FaultDecides(lines, k);
          return Err(UnsupportedVersion(text));
        }
      }
      if text == EndListTag {
        break;
      }
      if IsSegmentTag(text) {
        count := (count + 1) % CounterModulus;
      }
      ScanStep(lines, k);
      k := k + 1;
    }
    assert k == EndIndex(lines);
    return Ok(count);
  }

  lemma {:induction false} EndIndexAppend(lines: seq<string>, tail: seq<string>)
    requires EndIndex(lines) < |lines|
    ensures EndIndex(lines + tail) == EndIndex(lines)
  {
    if lines[0] != EndListTag {
      assert (lines + tail)[1..] == lines[1..] + tail;
      EndIndexAppend(lines[1..], tail);
    }
  }

  /** No line after the first terminator is examined by pass 1. */
  lemma ScanIgnoresTail(lines: seq<string>, tail: seq<string>)
    requires EndIndex(lines) < |lines|
    ensures ScanResult(lines + tail) == ScanResult(lines)
  {
    var e := EndIndex(lines);
    EndIndexAppend(lines, tail);
    PrefixOfAppend(lines, tail, e);
  }

  lemma PrefixOfAppend(a: seq<string>, b: seq<string>, n: nat)
    requires n <= |a|
    ensures (a + b)[..n] == a[..n]
  {
  }

  lemma {:induction false} CountRepeated(n: nat, line: string)
    requires IsSegmentTag(line)
    ensures CountTags(seq(n, _ => line)) == n
  {
    if n > 0 {
      assert seq(n, _ => line)[1..] == seq(n - 1, _ => line);
      CountRepeated(n - 1, line);
    }
  }

  /** The counter is 16 bits wide: 65536 segment tags count as none. */
  lemma RepeatedTagsWrap(n: nat, line: string)
    requires IsSegmentTag(line)
    ensures ScanResult(seq(n, _ => line)) == Ok(n % CounterModulus)
  {
    var lines := seq(n, _ => line);
    EndListIsPlain();
    assert line != EndListTag;
    assert EndIndex(lines) == n;
    assert lines[..n] == lines;
    assert !HasPrefix(line, VersionTag) by {
      assert line[4] == SegmentTag[4] != VersionTag[4];
    }
    CountRepeated(n, line);
    FirstFaultMeaning(lines);
  }

  // ---------------------------------------------------------------- pass 2

  /**
   * The references pass 2 extracts, in encounter order: lines are taken in
   * pairs, a missing second line reads as "", and a pair contributes its
   * second line when its first line is a segment tag and its second line is
   * not empty.
   */
  function Extracted(lines: seq<string>): seq<string>
    decreases |lines|
  {
    if lines == [] then []
    else
      var next := if |lines| > 1 then lines[1] else "";
      var rest := if |lines| > 1 then lines[2..] else [];
      (if IsSegmentTag(lines[0]) && next != "" then [next] else []) + Extracted(rest)
  }

  /** No phantom segment: every extracted reference is a non-empty line. */
  lemma {:induction false} ExtractedNonEmpty(lines: seq<string>)
    ensures forall j :: 0 <= j < |Extracted(lines)| ==> Extracted(lines)[j] != ""
    decreases |lines|
  {
    if |lines| > 1 {
      ExtractedNonEmpty(lines[2..]);
    }
  }

  /** The slot array after pass 2: the references first, then empty strings. */
  function Slots(refs: seq<string>, n: nat): seq<string> {
    seq(n, j requires 0 <= j < n => if j < |refs| then refs[j] else "")
  }

  /** The non-empty entries of a slot list, in order. */
  function NonEmpty(s: seq<string>): seq<string> {
    if s == [] then []
    else (if s[0] != "" then [s[0]] else []) + NonEmpty(s[1..])
  }

  /** One iteration of pass 2, seen from line `k`. */
  lemma ExtractedFrom(lines: seq<string>, k: nat)
    requires k < |lines|
    ensures var next := if k + 1 < |lines| then lines[k + 1] else "";
            var after := if k + 1 < |lines| then k + 2 else |lines|;
            Extracted(lines[k..])
            == (if IsSegmentTag(lines[k]) && next != "" then [next] else []) + Extracted(lines[after..])
  {
    var s := lines[k..];
    if k + 1 < |lines| {
      assert s[1] == lines[k + 1];
      assert s[2..] == lines[k + 2..];
    } else {
      assert lines[|lines|..] == [];
    }
  }

  lemma PairStep(lines: seq<string>, k: nat, done: seq<string>)
    requires k < |lines|
    requires Extracted(lines) == done + Extracted(lines[k..])
    ensures var next := if k + 1 < |lines| then lines[k + 1] else "";
            var after := if k + 1 < |lines| then k + 2 else |lines|;
            if IsSegmentTag(lines[k]) && next != ""
            then Extracted(lines) == (done + [next]) + Extracted(lines[after..])
            else Extracted(lines) == done + Extracted(lines[after..])
  {
    var next := if k + 1 < |lines| then lines[k + 1] else "";
    var after := if k + 1 < |lines| then k + 2 else |lines|;
    var c := if IsSegmentTag(lines[k]) && next != "" then [next] else [];
    ExtractedFrom(lines, k);
    AppendAssoc(done, c, Extracted(lines[after..]));
  }

  lemma AppendAssoc(a: seq<string>, b: seq<string>, c: seq<string>)
    ensures a + (b + c) == (a + b) + c
    ensures b == [] ==> a + b == a
  {
  }

  /**
   * Pass 2 (the second scanning loop): fills a fresh array of `count` slots.
   * It panics, with the first `count` references stored, when there are more
   * references than slots.
   */
  method FillSlots(lines: seq<string>, count: nat) returns (fileList: array<string>, overflow: bool)
    ensures fileList.Length == count
    ensures fileList[..] == Slots(Extracted(lines), count)
    ensures overflow <==> |Extracted(lines)| > count
  {
    fileList := new string[count](_ => "");
    ghost var done: seq<string> := [];
    overflow := false;
    var i := 0;
    var k := 0;
    while k < |lines|
      invariant k <= |lines|
      invariant i == |done| <= count == fileList.Length
      invariant Extracted(lines) == done + Extracted(lines[k..])
      invariant forall j :: 0 <= j < i ==> fileList[j] == done[j]
      invariant forall j :: i <= j < count ==> fileList[j] == ""
    {
      PairStep(lines, k, done);
      var text := lines[k];
      k := k + 1;
      var nextLine := "";
      if k < |lines| {
        nextLine := lines[k];
        k := k + 1;
      }
      // a tag followed by an empty line is skipped (the source's `continue`)
      if IsSegmentTag(text) && nextLine != "" {
        if i == count {
          // `fileList[i]` is out of range: the source panics here
          overflow := true;
          break;
        }
        fileList[i] := nextLine;
        done := done + [nextLine];
        i := i + 1;
      }
    }
    if !overflow {
      assert lines[k..] == [];
      assert Extracted(lines) == done;
    }
    SlotsOf(fileList[..], done, Extracted(lines), count);
  }

  /** The slot array holds `done` and then blanks, and `done` starts the references. */
  lemma SlotsOf(slots: seq<string>, done: seq<string>, refs: seq<string>, n: nat)
    requires |slots| == n && |done| <= n && done <= refs
    requires |done| < n ==> done == refs
    requires forall j :: 0 <= j < |done| ==> slots[j] == done[j]
    requires forall j :: |done| <= j < n ==> slots[j] == ""
    ensures slots == Slots(refs, n)
  {
  }

  /** Every extraction comes from a segment tag in first position of its pair. */
  lemma {:induction false} ExtractedAtMostTags(lines: seq<string>)
    ensures |Extracted(lines)| <= CountTags(lines)
    decreases |lines|
  {
    if |lines| > 1 {
      ExtractedAtMostTags(lines[2..]);
      assert lines[1..][1..] == lines[2..];
      assert CountTags(lines) == (if IsSegmentTag(lines[0]) then 1 else 0)
                                 + (if IsSegmentTag(lines[1]) then 1 else 0)
                                 + CountTags(lines[2..]);
    }
  }

  /**
   * When pass 2 reads the same lines as pass 1, no segment tag follows the
   * terminator and the counter did not wrap, the slots suffice.
   */
  lemma SameLinesFit(lines: seq<string>)
    requires ScanResult(lines).Ok?
    requires CountTags(lines[EndIndex(lines)..]) == 0
    requires CountTags(lines) < CounterModulus
    ensures |Extracted(lines)| <= ScanResult(lines).value
  {
    var e := EndIndex(lines);
    assert lines == lines[..e] + lines[e..];
    CountTagsAppend(lines[..e], lines[e..]);
    ExtractedAtMostTags(lines);
  }

  /** A segment tag after the terminator is extracted but was never counted. */
  lemma TagAfterEndOverflows()
    ensures var lines := [EndListTag, "", "#EXTINF:10,", "x.ts"];
            ScanResult(lines) == Ok(0) && Extracted(lines) == ["x.ts"]
  {
    var lines := [EndListTag, "", "#EXTINF:10,", "x.ts"];
    EndListIsPlain();
    assert EndIndex(lines) == 0;
    assert lines[..0] == [];
    assert lines[2..] == ["#EXTINF:10,", "x.ts"];
    assert "#EXTINF:10,"[..7] == SegmentTag;
    assert lines[2..][2..] == [];
    assert Extracted(lines[2..]) == ["x.ts"] + Extracted([]);
    assert Extracted(lines) == [] + Extracted(lines[2..]);
  }

  lemma {:induction false} BlankSlots(n: nat)
    ensures NonEmpty(Slots([], n)) == []
  {
    if n > 0 {
      assert Slots([], n)[1..] == Slots([], n - 1);
      BlankSlots(n - 1);
    }
  }

  /**
   * Without overflow the non-empty slots are exactly the extracted
   * references, in order: the download loop visits nothing else.
   */
  lemma {:induction false} SlotsHoldReferences(refs: seq<string>, n: nat)
    requires |refs| <= n
    requires forall j :: 0 <= j < |refs| ==> refs[j] != ""
    ensures NonEmpty(Slots(refs, n)) == refs
  {
    if refs == [] {
      BlankSlots(n);
    } else {
      assert Slots(refs, n)[1..] == Slots(refs[1..], n - 1);
      SlotsHoldReferences(refs[1..], n - 1);
    }
  }

  // ------------------------------------------------------------ examples

  /** The first line exactly equal to the terminator is found where it is. */
  lemma EndIndexAt(lines: seq<string>, k: nat)
    requires k < |lines| && lines[k] == EndListTag
    requires forall j :: 0 <= j < k ==> lines[j] != EndListTag
    ensures EndIndex(lines) == k
  {
  }

  /** A small playlist: a version line, two segments, the terminator. */
  const ExampleManifest := ["#EXT-X-VERSION:3", "#EXTINF:10,", "a.ts", "#EXTINF:10,", "b.ts", EndListTag]

  /** The same playlist behind the customary `#EXTM3U` header line. */
  const HeaderedManifest := ["#EXTM3U"] + ExampleManifest

  lemma ExampleLines()
    ensures !HasPrefix(ExampleManifest[0], SegmentTag) && ExampleManifest[0] != EndListTag
    ensures IsSegmentTag(ExampleManifest[1]) && !HasPrefix(ExampleManifest[1], VersionTag)
    ensures !IsSegmentTag("a.ts") && !IsSegmentTag("b.ts") && !IsSegmentTag("#EXTM3U")
    ensures VersionFault("a.ts") == None && VersionFault("b.ts") == None
    ensures VersionFault("#EXTM3U") == None && VersionFault(ExampleManifest[1]) == None
    ensures VersionFault(ExampleManifest[0]) == None
    ensures "#EXTM3U" != EndListTag
  {
    var m := ExampleManifest;
    VersionLine(':', "3");
    assert m[0] == VersionTag + [':'] + "3";
    assert m[1][..7] == SegmentTag;
    assert m[0][4] != SegmentTag[4];
    assert m[0][7] != EndListTag[7];
    assert m[1][4] != VersionTag[4];
    assert "#EXTM3U"[4] != SegmentTag[4];
    assert "#EXTM3U"[4] != VersionTag[4];
  }

  /** Tag lines are counted up to the terminator: two of them. */
  lemma {:induction false} CountTagsExample(s: seq<string>)
    requires s == ExampleManifest[..5] || s == HeaderedManifest[..6]
    ensures CountTags(s) == 2
  {
    ExampleLines();
    var m := ExampleManifest;
    var tail := [m[3], m[4]];
    assert CountTags(tail) == 1 by {
      assert tail[1..][1..] == [];
      assert CountTags(tail[1..]) == 0;
      assert IsSegmentTag(tail[0]);
    }
    assert CountTags([m[2]] + tail) == 1 by {
      assert ([m[2]] + tail)[1..] == tail;
    }
    assert CountTags([m[1], m[2]] + tail) == 2 by {
      assert ([m[1], m[2]] + tail)[1..] == [m[2]] + tail;
    }
    assert CountTags(m[..5]) == 2 by {
      assert m[..5][1..] == [m[1], m[2]] + tail;
    }
    if s != m[..5] {
      assert s[1..] == m[..5];
    }
  }

  /** Pass 1 counts two segments in both playlists. */
  lemma ExampleScans()
    ensures ScanResult(ExampleManifest) == Ok(2)
    ensures ScanResult(HeaderedManifest) == Ok(2)
  {
    ExampleLines();
    var m := ExampleManifest;
    var h := HeaderedManifest;
    EndIndexAt(m, 5);
    EndIndexAt(h, 6);
    FirstFaultMeaning(m[..5]);
    FirstFaultMeaning(h[..6]);
    CountTagsExample(m[..5]);
    CountTagsExample(h[..6]);
  }

  /**
   * Pass 2 extracts nothing from the first playlist, whose pairs are off by
   * one line, and both references from the second.
   */
  lemma ExampleExtracts()
    ensures Extracted(ExampleManifest) == []
    ensures Extracted(HeaderedManifest) == ["a.ts", "b.ts"]
  {
    ExampleLines();
    var m := ExampleManifest;
    var h := HeaderedManifest;
    assert Extracted(m[4..]) == [] by {
      assert m[4..][2..] == [];
    }
    assert Extracted(m[2..]) == [] by {
      assert m[2..][2..] == m[4..];
    }
    assert Extracted(h[4..]) == ["b.ts"] by {
      assert h[4..][1] == "b.ts";
      assert h[4..][2..] == [EndListTag];
      assert Extracted([EndListTag]) == [];
    }
    assert Extracted(h[2..]) == ["a.ts", "b.ts"] by {
      assert h[2..][1] == "a.ts";
      assert h[2..][2..] == h[4..];
    }
  }
}
