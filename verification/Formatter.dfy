/**
 * Splitting a message into chunks the Telegram API accepts, whose length limit
 * counts UTF-16 code units (section 2.1 of RFC 2781) while strings are indexed
 * by code point.
 */
module Formatter {

  function Units(c: char): (n: nat)
    ensures 1 <= n <= 2
  {
    if c as int >= 0x10000 then 2 else 1
  }

  // _utf16_len
  function Utf16Len(s: string): nat {
    if s == "" then 0 else Utf16Len(s[..|s| - 1]) + Units(s[|s| - 1])
  }

  // str.isspace, for the characters str.strip removes.
  predicate IsSpace(c: char) {
    var n := c as int;
    || 0x09 <= n <= 0x0D || 0x1C <= n <= 0x20 || n == 0x85 || n == 0xA0 || n == 0x1680
    || 0x2000 <= n <= 0x200A || n == 0x2028 || n == 0x2029 || n == 0x202F || n == 0x205F || n == 0x3000
  }

  function StripLeft(s: string): string {
    if s != "" && IsSpace(s[0]) then StripLeft(s[1..]) else s
  }

  function StripRight(s: string): string {
    if s != "" && IsSpace(s[|s| - 1]) then StripRight(s[..|s| - 1]) else s
  }

  function Strip(s: string): string {
    StripRight(StripLeft(s))
  }

  // What a message says, whitespace aside.
  function Ink(s: string): string {
    if s == "" then "" else (if IsSpace(s[0]) then "" else [s[0]]) + Ink(s[1..])
  }

  function InkOfAll(chunks: seq<string>): string {
    if chunks == [] then "" else Ink(chunks[0]) + InkOfAll(chunks[1..])
  }

  predicate BmpOnly(s: string) {
    forall i | 0 <= i < |s| :: s[i] as int < 0x10000
  }

  // str.rfind: the last occurrence, or -1.
  function RFind(s: string, needle: string): (at: int)
    requires needle != ""
    ensures -1 <= at && (at >= 0 ==> at + |needle| <= |s|)
  {
    if |s| < |needle| then -1
    else if s[|s| - |needle|..] == needle then |s| - |needle|
    else RFind(s[..|s| - 1], needle)
  }

  // s[:n] and s[n:]: an end beyond the string stops at its end, and a negative
  // one counts from it.
  function SliceEnd(s: string, n: int): (end: nat)
    ensures end <= |s|
  {
    if n > |s| then |s| else if n >= 0 then n else if |s| + n >= 0 then |s| + n else 0
  }

  function Head(s: string, n: int): string {
    s[..SliceEnd(s, n)]
  }

  function Rest(s: string, n: int): string {
    s[SliceEnd(s, n)..]
  }

  // ------------------------------------------------------------ small lemmas

  predicate Occurs(s: string, needle: string, at: int) {
    0 <= at && at + |needle| <= |s| && s[at..at + |needle|] == needle
  }

  // The last place where the needle occurs, or -1 if it does not.
  ghost predicate LastOccurrence(s: string, needle: string, at: int) {
    (at == -1 || Occurs(s, needle, at)) && forall later | Occurs(s, needle, later) :: later <= at
  }

  lemma {:induction false} RFindIsLast(s: string, needle: string)
    requires needle != ""
    ensures LastOccurrence(s, needle, RFind(s, needle))
  {
    var n := |needle|;
    if |s| >= n && s[|s| - n..] != needle {
      var front := s[..|s| - 1];
      RFindIsLast(front, needle);
      forall at
        ensures Occurs(s, needle, at) <==> Occurs(front, needle, at)
      {
        if 0 <= at && at + n <= |front| {
          assert front[at..at + n] == s[at..at + n];
        }
        assert s[|s| - n..|s|] == s[|s| - n..];
      }
    } else if |s| >= n {
      assert s[|s| - n..|s|] == s[|s| - n..];
    }
  }

  lemma LastOccurrenceIsUnique(s: string, needle: string, a: int, b: int)
    requires LastOccurrence(s, needle, a) && LastOccurrence(s, needle, b)
    ensures a == b
  {
  }

  ghost predicate AllSpace(s: string) {
    forall c | c in s :: IsSpace(c)
  }

  lemma {:induction false} StripLeftIsExact(s: string) returns (dropped: string)
    ensures s == dropped + StripLeft(s) && AllSpace(dropped)
    ensures StripLeft(s) != "" ==> !IsSpace(StripLeft(s)[0])
  {
    dropped := "";
    if s != "" && IsSpace(s[0]) {
      var rest := StripLeftIsExact(s[1..]);
      dropped := [s[0]] + rest;
    }
  }

  lemma {:induction false} StripRightIsExact(s: string) returns (dropped: string)
    ensures s == StripRight(s) + dropped && AllSpace(dropped)
    ensures StripRight(s) != "" ==> !IsSpace(StripRight(s)[|StripRight(s)| - 1]) && StripRight(s)[0] == s[0]
  {
    dropped := "";
    if s != "" && IsSpace(s[|s| - 1]) {
      var rest := StripRightIsExact(s[..|s| - 1]);
      dropped := rest + [s[|s| - 1]];
    }
  }

  // A text without space at either end.
  predicate Trimmed(s: string) {
    s != "" ==> !IsSpace(s[0]) && !IsSpace(s[|s| - 1])
  }

  // Stripping drops the space at both ends and nothing else.
  lemma StripIsExact(s: string) returns (before: string, after: string)
    ensures s == before + Strip(s) + after && AllSpace(before) && AllSpace(after)
    ensures Trimmed(Strip(s))
  {
    before := StripLeftIsExact(s);
    after := StripRightIsExact(StripLeft(s));
  }

  lemma {:induction false} Utf16LenConcat(a: string, b: string)
    ensures Utf16Len(a + b) == Utf16Len(a) + Utf16Len(b)
    decreases |b|
  {
    if b == "" {
      assert a + b == a;
    } else {
      Utf16LenConcat(a, b[..|b| - 1]);
      assert (a + b)[..|a + b| - 1] == a + b[..|b| - 1];
    }
  }

  lemma {:induction false} Utf16LenBounds(s: string)
    ensures |s| <= Utf16Len(s) <= 2 * |s|
    ensures BmpOnly(s) ==> Utf16Len(s) == |s|
  {
    if s != "" {
      Utf16LenBounds(s[..|s| - 1]);
    }
  }

  lemma PartOfBmpIsBmp(part: string, whole: string)
    requires BmpOnly(whole) && forall c | c in part :: c in whole
    ensures BmpOnly(part)
  {
    forall i | 0 <= i < |part|
      ensures part[i] as int < 0x10000
    {
      assert part[i] in whole;
    }
  }

  lemma PrefixIsShorter(s: string, i: nat, j: nat)
    requires i <= j <= |s|
    ensures Utf16Len(s[..i]) <= Utf16Len(s[..j])
    ensures i < j ==> Utf16Len(s[..i]) < Utf16Len(s[..j])
  {
    assert s[..j] == s[..i] + s[i..j];
    Utf16LenConcat(s[..i], s[i..j]);
    Utf16LenBounds(s[i..j]);
  }

  lemma {:induction false} InkConcat(a: string, b: string)
    ensures Ink(a + b) == Ink(a) + Ink(b)
  {
    if a == "" {
      assert a + b == b;
    } else {
      assert (a + b)[1..] == a[1..] + b;
      InkConcat(a[1..], b);
    }
  }

  lemma {:induction false} StripLeftKeepsInk(s: string)
    ensures Ink(StripLeft(s)) == Ink(s)
    ensures |StripLeft(s)| <= |s| && s[|s| - |StripLeft(s)|..] == StripLeft(s)
  {
    if s != "" && IsSpace(s[0]) {
      StripLeftKeepsInk(s[1..]);
    }
  }

  lemma {:induction false} StripRightKeepsInk(s: string)
    ensures Ink(StripRight(s)) == Ink(s)
    ensures |StripRight(s)| <= |s| && s[..|StripRight(s)|] == StripRight(s)
  {
    if s != "" && IsSpace(s[|s| - 1]) {
      var front, last := s[..|s| - 1], [s[|s| - 1]];
      StripRightKeepsInk(front);
      InkConcat(front, last);
      assert s == front + last;
      assert Ink(last) == "" by {
        assert last[1..] == "";
      }
    }
  }

  // Stripping loses no ink and returns a contiguous piece of the string.
  lemma StripKeepsInk(s: string)
    ensures Ink(Strip(s)) == Ink(s)
    ensures |Strip(s)| <= |s| && Utf16Len(Strip(s)) <= Utf16Len(s)
    ensures forall c | c in Strip(s) :: c in s
  {
    var left := StripLeft(s);
    StripLeftKeepsInk(s);
    StripRightKeepsInk(left);
    PrefixIsShorter(left, |Strip(s)|, |left|);
    assert left[..|left|] == left;
    var dropped := s[..|s| - |left|];
    assert s == dropped + left;
    Utf16LenConcat(dropped, left);
  }

  // ----------------------------------------------------------- binary search

  // The longest prefix within `limit` code units.
  ghost predicate LongestPrefix(s: string, limit: int, prefix: string) {
    && prefix <= s
    && (limit >= 0 ==> Utf16Len(prefix) <= limit)
    && forall n | |prefix| < n <= |s| :: Utf16Len(s[..n]) > limit
  }

  function Prefix(s: string, limit: int): string {
    if s == "" || Utf16Len(s) <= limit then s else Prefix(s[..|s| - 1], limit)
  }

  lemma {:induction false} PrefixIsLongest(s: string, limit: int)
    ensures LongestPrefix(s, limit, Prefix(s, limit))
    ensures limit < 0 ==> Prefix(s, limit) == ""
  {
    if s != "" && Utf16Len(s) > limit {
      var front := s[..|s| - 1];
      PrefixIsLongest(front, limit);
      assert forall n | 0 <= n < |s| :: front[..n] == s[..n];
      assert s[..|s|] == s;
    }
  }

  lemma LongestPrefixIsUnique(s: string, limit: int, a: string, b: string)
    requires LongestPrefix(s, limit, a) && LongestPrefix(s, limit, b)
    requires limit >= 0 || a == b == ""
    ensures a == b
  {
    assert a == s[..|a|] && b == s[..|b|];
  }

  method PrefixWithinLimit(s: string, limit: int) returns (prefix: string)
    ensures LongestPrefix(s, limit, prefix)
    ensures prefix == Prefix(s, limit)
  {
    PrefixIsLongest(s, limit);
    if Utf16Len(s) <= limit {
      assert s[..|s|] == s;
      return s;
    }
    var lo, hi := 0, |s|;
    while lo < hi
      invariant 0 <= lo <= hi <= |s|
      invariant lo > 0 ==> Utf16Len(s[..lo]) <= limit
      invariant forall n | hi < n <= |s| :: Utf16Len(s[..n]) > limit
    {
      var mid := (lo + hi + 1) / 2;
      if Utf16Len(s[..mid]) <= limit {
        lo := mid;
      } else {
        forall n | mid <= n <= |s|
          ensures Utf16Len(s[..n]) > limit
        {
          PrefixIsShorter(s, mid, n);
        }
        hi := mid - 1;
      }
    }
    prefix := s[..lo];
    Utf16LenBounds(Prefix(s, limit));
    LongestPrefixIsUnique(s, limit, prefix, Prefix(s, limit));
  }

  // --------------------------------------------------------------- splitting

  // A place to cut a text that is too long: inside the prefix that fits, or the
  // last resort, which counts code points and not code units.
  ghost predicate GoodCut(s: string, maxLen: int, cut: int) {
    && 1 <= cut
    && (cut == maxLen - 10 || (cut <= |s| && Utf16Len(s[..cut]) <= maxLen))
  }

  lemma CutInsidePrefixFits(s: string, prefix: string, limit: int, maxLen: int, cut: int)
    requires LongestPrefix(s, limit, prefix) && 0 <= limit <= maxLen && 0 <= cut <= |prefix|
    ensures Utf16Len(s[..cut]) <= maxLen
  {
    assert s[..cut] == prefix[..cut] && prefix[..|prefix|] == prefix;
    PrefixIsShorter(prefix, cut, |prefix|);
  }

  // The choice of the cut: a late paragraph break, else a late line break, else
  // a space, else the last resort.
  function Cut(remaining: string, maxLen: int): int {
    var chunk := Prefix(remaining, maxLen);
    var paragraphBreak, singleBreak, space := RFind(chunk, "\n\n"), RFind(chunk, "\n"), RFind(chunk, " ");
    var earlySpace := RFind(Prefix(remaining, maxLen - 10), " ");
    if 2 * paragraphBreak > maxLen then paragraphBreak
    else if 10 * singleBreak > 7 * maxLen then singleBreak
    else if 10 * space >= 3 * maxLen && space >= 1 then space
    else if 10 * space < 3 * maxLen && earlySpace >= 1 then earlySpace
    else maxLen - 10
  }

  lemma CutIsGood(remaining: string, maxLen: int)
    requires maxLen > 10
    ensures GoodCut(remaining, maxLen, Cut(remaining, maxLen))
  {
    var chunk, shorter := Prefix(remaining, maxLen), Prefix(remaining, maxLen - 10);
    PrefixIsLongest(remaining, maxLen);
    PrefixIsLongest(remaining, maxLen - 10);
    var cut := Cut(remaining, maxLen);
    if 1 <= cut <= |chunk| {
      CutInsidePrefixFits(remaining, chunk, maxLen, maxLen, cut);
    }
    if 1 <= cut <= |shorter| {
      CutInsidePrefixFits(remaining, shorter, maxLen - 10, maxLen, cut);
    }
  }

  lemma Thresholds(at: int, maxLen: int)
    ensures at as real > maxLen as real * 0.5 <==> 2 * at > maxLen
    ensures at as real > maxLen as real * 0.7 <==> 10 * at > 7 * maxLen
    ensures at as real < maxLen as real * 0.3 <==> 10 * at < 3 * maxLen
  {
    assert (10 * at) as real == 10.0 * at as real;
    assert (7 * maxLen) as real == 7.0 * maxLen as real && (3 * maxLen) as real == 3.0 * maxLen as real;
  }

  method ChooseCut(remaining: string, maxLen: int) returns (cut: int)
    requires maxLen > 10
    ensures cut == Cut(remaining, maxLen)
  {
    var chunk := PrefixWithinLimit(remaining, maxLen);
    var paragraphBreak := RFind(chunk, "\n\n");
    var singleBreak := RFind(chunk, "\n");
    Thresholds(paragraphBreak, maxLen);
    Thresholds(singleBreak, maxLen);
    Thresholds(RFind(chunk, " "), maxLen);
    if paragraphBreak as real > maxLen as real * 0.5 {
      cut := paragraphBreak;
    } else if singleBreak as real > maxLen as real * 0.7 {
      cut := singleBreak;
    } else {
      cut := RFind(chunk, " ");
      if cut as real < maxLen as real * 0.3 {
        var shorter := PrefixWithinLimit(remaining, maxLen - 10);
        cut := RFind(shorter, " ");
        if cut < 1 {
          cut := maxLen - 10;
        }
      }
    }
    if cut < 1 {
      cut := maxLen - 10;
    }
  }

  // The cut, from the last breaks of the text that fits the limit, and of the
  // text that fits ten less: the last blank line in the second half, else the
  // last line end past seven tenths, else the last space from three tenths on;
  // else the last space of the shorter text if the one before came too early;
  // and else ten characters short of the limit.
  lemma CutPrefersLateBreaks(remaining: string, maxLen: int, fitting: string, shorter: string,
                             blankLine: int, lineEnd: int, space: int, earlySpace: int)
    requires maxLen > 10
    requires LongestPrefix(remaining, maxLen, fitting) && LongestPrefix(remaining, maxLen - 10, shorter)
    requires LastOccurrence(fitting, "\n\n", blankLine) && LastOccurrence(fitting, "\n", lineEnd)
    requires LastOccurrence(fitting, " ", space) && LastOccurrence(shorter, " ", earlySpace)
    ensures var tenth := maxLen as real / 10.0;
            && (blankLine as real > 5.0 * tenth ==> Cut(remaining, maxLen) == blankLine)
            && (blankLine as real <= 5.0 * tenth ==>
                  && (lineEnd as real > 7.0 * tenth ==> Cut(remaining, maxLen) == lineEnd)
                  && (lineEnd as real <= 7.0 * tenth ==>
                        && (space as real >= 3.0 * tenth ==> Cut(remaining, maxLen) == space)
                        && (space as real < 3.0 * tenth ==>
                              Cut(remaining, maxLen) == if earlySpace >= 1 then earlySpace else maxLen - 10)))
  {
    PrefixIsLongest(remaining, maxLen);
    PrefixIsLongest(remaining, maxLen - 10);
    LongestPrefixIsUnique(remaining, maxLen, fitting, Prefix(remaining, maxLen));
    LongestPrefixIsUnique(remaining, maxLen - 10, shorter, Prefix(remaining, maxLen - 10));
    BreaksAreFound(fitting, blankLine, lineEnd, space);
    RFindIsLast(shorter, " ");
    LastOccurrenceIsUnique(shorter, " ", earlySpace, RFind(shorter, " "));
    Thresholds(blankLine, maxLen);
    Thresholds(lineEnd, maxLen);
    Thresholds(space, maxLen);
  }

  lemma BreaksAreFound(fitting: string, blankLine: int, lineEnd: int, space: int)
    requires LastOccurrence(fitting, "\n\n", blankLine) && LastOccurrence(fitting, "\n", lineEnd)
    requires LastOccurrence(fitting, " ", space)
    ensures blankLine == RFind(fitting, "\n\n") && lineEnd == RFind(fitting, "\n") && space == RFind(fitting, " ")
  {
    RFindIsLast(fitting, "\n\n");
    LastOccurrenceIsUnique(fitting, "\n\n", blankLine, RFind(fitting, "\n\n"));
    RFindIsLast(fitting, "\n");
    LastOccurrenceIsUnique(fitting, "\n", lineEnd, RFind(fitting, "\n"));
    RFindIsLast(fitting, " ");
    LastOccurrenceIsUnique(fitting, " ", space, RFind(fitting, " "));
  }

  function Max(a: int, b: int): int { if a < b then b else a }

  // The size bound that holds for every chunk, whatever the text.
  ghost predicate Fits(chunk: string, maxLen: int) {
    && Utf16Len(chunk) <= Max(maxLen, 2 * (maxLen - 10))
    && (BmpOnly(chunk) ==> Utf16Len(chunk) <= maxLen)
  }

  lemma CutPieceFits(s: string, maxLen: int, cut: int)
    requires maxLen > 10 && GoodCut(s, maxLen, cut)
    ensures Fits(Strip(Head(s, cut)), maxLen)
    ensures Ink(Strip(Head(s, cut))) + Ink(Strip(Rest(s, cut))) == Ink(s)
    ensures s != "" ==> |Strip(Rest(s, cut))| < |s|
    ensures forall c | c in Strip(Head(s, cut)) + Strip(Rest(s, cut)) :: c in s
  {
    var head, rest := Head(s, cut), Rest(s, cut);
    assert s == head + rest;
    assert cut <= |s| ==> head == s[..cut];
    StripKeepsInk(head);
    StripKeepsInk(rest);
    InkConcat(head, rest);
    Utf16LenBounds(head);
    Utf16LenBounds(Strip(head));
  }

  lemma {:induction false} InkOfAllConcat(a: seq<string>, b: seq<string>)
    ensures InkOfAll(a + b) == InkOfAll(a) + InkOfAll(b)
  {
    if a == [] {
      assert a + b == b;
    } else {
      assert (a + b)[1..] == a[1..] + b;
      InkOfAllConcat(a[1..], b);
    }
  }

  lemma InkOfOne(chunk: string)
    ensures InkOfAll([chunk]) == Ink(chunk)
  {
    assert [chunk][1..] == [];
  }

  lemma InkOfNext(chunks: seq<string>, next: string, rest: string)
    ensures InkOfAll(chunks + [next]) == InkOfAll(chunks) + Ink(next)
    ensures InkOfAll(chunks + [next]) + rest == InkOfAll(chunks) + (Ink(next) + rest)
  {
    InkOfAllConcat(chunks, [next]);
    InkOfOne(next);
  }

  // The list comprehension that drops empty chunks.
  function Kept(chunks: seq<string>): seq<string> {
    if chunks == [] then
      []
    else
      var front, last := chunks[..|chunks| - 1], chunks[|chunks| - 1];
      Kept(front) + if last == "" then [] else [last]
  }

  lemma {:induction false} KeptMembers(chunks: seq<string>)
    ensures forall chunk :: chunk in Kept(chunks) <==> chunk in chunks && chunk != ""
  {
    if chunks != [] {
      var front, last := chunks[..|chunks| - 1], chunks[|chunks| - 1];
      assert chunks == front + [last];
      KeptMembers(front);
    }
  }

  lemma {:induction false} KeptInk(chunks: seq<string>)
    ensures InkOfAll(Kept(chunks)) == InkOfAll(chunks)
  {
    if chunks != [] {
      var front, last := chunks[..|chunks| - 1], chunks[|chunks| - 1];
      assert chunks == front + [last];
      KeptInk(front);
      InkOfNext(front, last, "");
      InkOfNext(Kept(front), last, "");
      assert InkOfAll(front) + "" == InkOfAll(front) && Kept(front) + [] == Kept(front);
    }
  }

  method NonEmpty(chunks: seq<string>) returns (kept: seq<string>)
    ensures kept == Kept(chunks)
  {
    kept := [];
    for i := 0 to |chunks|
      invariant kept == Kept(chunks[..i])
    {
      assert chunks[..i + 1][..i] == chunks[..i];
      if chunks[i] != "" {
        kept := kept + [chunks[i]];
      }
    }
    assert chunks[..|chunks|] == chunks;
  }

  lemma RestIsShorter(s: string, maxLen: int)
    requires maxLen > 10 && s != ""
    ensures |Strip(Rest(s, Cut(s, maxLen)))| < |s|
  {
    CutIsGood(s, maxLen);
    StripKeepsInk(Rest(s, Cut(s, maxLen)));
  }

  // What is left of a text after each cut, the text itself first, as long as it
  // is too long to send.
  function Remainders(s: string, maxLen: int): seq<string>
    requires maxLen > 10
    decreases |s|
  {
    if s == "" || Utf16Len(s) <= maxLen then
      []
    else
      RestIsShorter(s, maxLen);
      [s] + Remainders(Strip(Rest(s, Cut(s, maxLen))), maxLen)
  }

  // The chunks, empty ones included.
  function Pieces(s: string, maxLen: int): seq<string>
    requires maxLen > 10
    decreases |s|
  {
    if s == "" then
      []
    else if Utf16Len(s) <= maxLen then
      [s]
    else
      RestIsShorter(s, maxLen);
      [Strip(Head(s, Cut(s, maxLen)))] + Pieces(Strip(Rest(s, Cut(s, maxLen))), maxLen)
  }

  function Chunks(text: string, maxLen: int): seq<string>
    requires maxLen > 10
  {
    if Utf16Len(text) <= maxLen then [text] else Kept(Pieces(text, maxLen))
  }

  lemma NextPiece(chunks: seq<string>, s: string, maxLen: int)
    requires maxLen > 10 && s != "" && Utf16Len(s) > maxLen
    ensures chunks + Pieces(s, maxLen)
            == chunks + [Strip(Head(s, Cut(s, maxLen)))] + Pieces(Strip(Rest(s, Cut(s, maxLen))), maxLen)
  {
  }

  lemma LastPiece(chunks: seq<string>, s: string, maxLen: int)
    requires maxLen > 10 && s != "" && Utf16Len(s) <= maxLen
    ensures chunks + Pieces(s, maxLen) == chunks + [s] + Pieces("", maxLen)
  {
  }

  lemma {:induction false} PiecesAreGood(s: string, maxLen: int)
    requires maxLen > 10
    ensures InkOfAll(Pieces(s, maxLen)) == Ink(s)
    ensures forall piece | piece in Pieces(s, maxLen) :: Fits(piece, maxLen) && forall c | c in piece :: c in s
    decreases |s|
  {
    if s != "" && Utf16Len(s) <= maxLen {
      InkOfOne(s);
    } else if s != "" {
      var cut := Cut(s, maxLen);
      var piece, rest := Strip(Head(s, cut)), Strip(Rest(s, cut));
      CutIsGood(s, maxLen);
      CutPieceFits(s, maxLen, cut);
      PiecesAreGood(rest, maxLen);
      assert forall c | c in piece :: c in piece + rest;
      assert forall c | c in rest :: c in piece + rest;
      InkOfAllConcat([piece], Pieces(rest, maxLen));
      InkOfOne(piece);
    }
  }

  lemma ChunksAreGood(text: string, maxLen: int)
    requires maxLen > 10
    ensures InkOfAll(Chunks(text, maxLen)) == Ink(text)
    ensures forall chunk | chunk in Chunks(text, maxLen) :: Fits(chunk, maxLen) && forall c | c in chunk :: c in text
    ensures BmpOnly(text) ==> forall chunk | chunk in Chunks(text, maxLen) :: Utf16Len(chunk) <= maxLen
    ensures Utf16Len(text) > maxLen ==> forall chunk | chunk in Chunks(text, maxLen) :: chunk != ""
  {
    InkOfOne(text);
    PiecesAreGood(text, maxLen);
    KeptMembers(Pieces(text, maxLen));
    KeptInk(Pieces(text, maxLen));
    if BmpOnly(text) {
      forall chunk | chunk in Chunks(text, maxLen)
        ensures Utf16Len(chunk) <= maxLen
      {
        PartOfBmpIsBmp(chunk, text);
      }
    }
  }

  lemma {:induction false} PiecesAreTrimmed(s: string, maxLen: int)
    requires maxLen > 10 && (Trimmed(s) || Utf16Len(s) > maxLen)
    ensures forall piece | piece in Pieces(s, maxLen) :: Trimmed(piece)
    decreases |s|
  {
    if s != "" && Utf16Len(s) > maxLen {
      var cut := Cut(s, maxLen);
      RestIsShorter(s, maxLen);
      var a, b := StripIsExact(Head(s, cut));
      var c, d := StripIsExact(Rest(s, cut));
      PiecesAreTrimmed(Strip(Rest(s, cut)), maxLen);
    }
  }

  // No chunk of a text that had to be split begins or ends with space.
  lemma ChunksAreTrimmed(text: string, maxLen: int)
    requires maxLen > 10 && Utf16Len(text) > maxLen
    ensures forall chunk | chunk in Chunks(text, maxLen) :: chunk != "" && Trimmed(chunk)
  {
    PiecesAreTrimmed(text, maxLen);
    KeptMembers(Pieces(text, maxLen));
  }

  // chunk_message: it terminates, the chunks spell out the text's visible
  // characters in order, every chunk respects the size bound, and chunks of a
  // text within the Basic Multilingual Plane respect the limit itself.
  method ChunkMessage(text: string, maxLen: int) returns (chunks: seq<string>)
    requires maxLen > 10
    ensures chunks == Chunks(text, maxLen)
    ensures InkOfAll(chunks) == Ink(text)
    ensures forall chunk | chunk in chunks :: Fits(chunk, maxLen)
    ensures BmpOnly(text) ==> forall chunk | chunk in chunks :: Utf16Len(chunk) <= maxLen
    ensures Utf16Len(text) > maxLen ==> forall chunk | chunk in chunks :: chunk != ""
  {
    if Utf16Len(text) <= maxLen {
      ChunksAreGood(text, maxLen);
      return [text];
    }
    chunks := [];
    var remaining := text;
    while remaining != ""
      invariant chunks + Pieces(remaining, maxLen) == Pieces(text, maxLen)
      decreases |remaining|
    {
      if Utf16Len(remaining) <= maxLen {
        LastPiece(chunks, remaining, maxLen);
        chunks := chunks + [remaining];
        remaining := "";
        break;
      }
      NextPiece(chunks, remaining, maxLen);
      RestIsShorter(remaining, maxLen);
      var cut := ChooseCut(remaining, maxLen);
      chunks := chunks + [Strip(Head(remaining, cut))];
      remaining := Strip(Rest(remaining, cut));
    }
    assert chunks + [] == chunks;
    chunks := NonEmpty(chunks);
    ChunksAreGood(text, maxLen);
  }

  // ----------------------------------------------------- when the limit holds

  // None of the places to cut is to be found: the branch of the last resort.
  predicate NoPlaceToCut(s: string, maxLen: int) {
    var chunk := Prefix(s, maxLen);
    var space := RFind(chunk, " ");
    && 2 * RFind(chunk, "\n\n") <= maxLen
    && 10 * RFind(chunk, "\n") <= 7 * maxLen
    && (10 * space >= 3 * maxLen ==> space < 1)
    && (10 * space < 3 * maxLen ==> RFind(Prefix(s, maxLen - 10), " ") < 1)
  }

  // A cut leaves a head over the limit if and only if it is the last resort and
  // that many code points take too many code units; and so for what is sent,
  // the stripped head.
  lemma CutOverflowsExactly(s: string, maxLen: int)
    requires maxLen > 10
    ensures var head, least := Head(s, Cut(s, maxLen)), Head(s, maxLen - 10);
            && (Utf16Len(head) > maxLen <==> NoPlaceToCut(s, maxLen) && Utf16Len(least) > maxLen)
            && (Utf16Len(Strip(head)) > maxLen <==> NoPlaceToCut(s, maxLen) && Utf16Len(Strip(least)) > maxLen)
  {
    var cut := Cut(s, maxLen);
    if !NoPlaceToCut(s, maxLen) {
      PlaceFits(s, maxLen);
      StripKeepsInk(Head(s, cut));
    }
  }

  lemma PlaceFits(s: string, maxLen: int)
    requires maxLen > 10 && !NoPlaceToCut(s, maxLen)
    ensures Utf16Len(Head(s, Cut(s, maxLen))) <= maxLen
  {
    var chunk, shorter := Prefix(s, maxLen), Prefix(s, maxLen - 10);
    PrefixIsLongest(s, maxLen);
    PrefixIsLongest(s, maxLen - 10);
    var cut := Cut(s, maxLen);
    assert 1 <= cut <= |chunk| || 1 <= cut <= |shorter|;
    if cut <= |chunk| {
      CutInsidePrefixFits(s, chunk, maxLen, maxLen, cut);
    } else {
      CutInsidePrefixFits(s, shorter, maxLen - 10, maxLen, cut);
    }
  }

  predicate Overflows(s: string, maxLen: int)
    requires maxLen > 10
  {
    NoPlaceToCut(s, maxLen) && Utf16Len(Strip(Head(s, maxLen - 10))) > maxLen
  }

  lemma {:induction false} PiecesFitExactly(s: string, maxLen: int)
    requires maxLen > 10
    ensures (forall piece | piece in Pieces(s, maxLen) :: Utf16Len(piece) <= maxLen)
            <==> (forall r | r in Remainders(s, maxLen) :: !Overflows(r, maxLen))
    decreases |s|
  {
    if s != "" && Utf16Len(s) > maxLen {
      var piece, rest := Strip(Head(s, Cut(s, maxLen))), Strip(Rest(s, Cut(s, maxLen)));
      RestIsShorter(s, maxLen);
      PiecesFitExactly(rest, maxLen);
      CutOverflowsExactly(s, maxLen);
      assert Pieces(s, maxLen) == [piece] + Pieces(rest, maxLen);
      assert Remainders(s, maxLen) == [s] + Remainders(rest, maxLen);
      assert Utf16Len(piece) > maxLen <==> Overflows(s, maxLen);
    }
  }

  // For any text: every chunk fits the limit if and only if no remainder of it
  // has to be cut by the last resort across too many code units.
  lemma ChunksFitExactly(text: string, maxLen: int)
    requires maxLen > 10
    ensures (forall chunk | chunk in Chunks(text, maxLen) :: Utf16Len(chunk) <= maxLen)
            <==> (forall r | r in Remainders(text, maxLen) :: !Overflows(r, maxLen))
  {
    PiecesFitExactly(text, maxLen);
    KeptMembers(Pieces(text, maxLen));
    if Utf16Len(text) > maxLen {
      forall piece | piece in Pieces(text, maxLen) && piece !in Chunks(text, maxLen)
        ensures Utf16Len(piece) <= maxLen
      {
        assert piece == "";
      }
    }
  }

  // -------------------------------------------------------- words of one letter

  function Word(c: char, n: nat): (word: string)
    ensures |word| == n
  {
    seq(n, i => c)
  }

  predicate IsLetter(c: char) {
    !IsSpace(c) && c != ' ' && c != '\n'
  }

  lemma {:induction false} NotInWord(c: char, n: nat, needle: string)
    requires needle != "" && needle[0] != c
    ensures RFind(Word(c, n), needle) == -1
  {
    if |needle| <= n {
      assert Word(c, n)[n - |needle|..][0] == c;
      assert Word(c, n)[..n - 1] == Word(c, n - 1);
      NotInWord(c, n - 1, needle);
    }
  }

  lemma WordHasNoBreaks(c: char, n: nat)
    requires IsLetter(c)
    ensures RFind(Word(c, n), " ") == RFind(Word(c, n), "\n") == RFind(Word(c, n), "\n\n") == -1
  {
    NotInWord(c, n, " ");
    NotInWord(c, n, "\n");
    NotInWord(c, n, "\n\n");
  }

  lemma {:induction false} PrefixOfWord(c: char, n: nat, limit: int) returns (m: nat)
    ensures Prefix(Word(c, n), limit) == Word(c, m)
  {
    m := n;
    if n > 0 {
      assert Word(c, n)[..n - 1] == Word(c, n - 1);
      var shorter := PrefixOfWord(c, n - 1, limit);
      m := if Utf16Len(Word(c, n)) <= limit then n else shorter;
    }
  }

  lemma {:induction false} WordLen(c: char, n: nat)
    ensures Utf16Len(Word(c, n)) == if Units(c) == 2 then 2 * n else n
  {
    if n > 0 {
      assert Word(c, n)[..n - 1] == Word(c, n - 1);
      WordLen(c, n - 1);
    }
  }

  lemma WordIsStripped(c: char, n: nat)
    requires !IsSpace(c)
    ensures Strip(Word(c, n)) == Word(c, n)
  {
  }

  lemma WordIsCutLast(c: char, n: nat, maxLen: int)
    requires IsLetter(c) && 0 <= maxLen
    ensures NoPlaceToCut(Word(c, n), maxLen) && Cut(Word(c, n), maxLen) == maxLen - 10
  {
    var chunk := PrefixOfWord(c, n, maxLen);
    var shorter := PrefixOfWord(c, n, maxLen - 10);
    WordHasNoBreaks(c, chunk);
    WordHasNoBreaks(c, shorter);
  }

  lemma HeadOfWord(c: char, n: nat, m: nat)
    requires m <= n
    ensures Head(Word(c, n), m) == Word(c, m)
  {
  }

  // A character outside the Basic Multilingual Plane.
  const ASTRAL: char := '\U{1F600}'

  // A long word of such characters does not fit, at any limit above twenty: its
  // first chunk takes 2 * (limit - 10) units, 8172 of them at 4096.
  lemma AstralWordOverflows(n: nat, maxLen: int)
    requires maxLen > 20 && n >= maxLen - 10
    ensures var word := Word(ASTRAL, n);
            && Overflows(word, maxLen) && word in Remainders(word, maxLen)
            && Utf16Len(Strip(Head(word, Cut(word, maxLen)))) == 2 * (maxLen - 10)
  {
    var word := Word(ASTRAL, n);
    AstralHeadIsLong(n, maxLen - 10);
    LongTextRemains(word, maxLen);
    WordIsCutLast(ASTRAL, n, maxLen);
  }

  lemma AstralHeadIsLong(n: nat, m: nat)
    requires m <= n
    ensures Utf16Len(Strip(Head(Word(ASTRAL, n), m))) == 2 * m
    ensures Utf16Len(Word(ASTRAL, n)) == 2 * n
  {
    HeadOfWord(ASTRAL, n, m);
    WordIsStripped(ASTRAL, m);
    WordLen(ASTRAL, m);
    WordLen(ASTRAL, n);
  }

  lemma LongTextRemains(s: string, maxLen: int)
    requires maxLen > 10 && Utf16Len(s) > maxLen
    ensures s in Remainders(s, maxLen)
  {
    assert Remainders(s, maxLen)[0] == s;
  }

  // At limits from eleven to twenty nothing overflows.
  lemma TightLimitsFit(s: string, maxLen: int)
    requires 10 < maxLen <= 20
    ensures !Overflows(s, maxLen)
  {
    Utf16LenBounds(Strip(Head(s, maxLen - 10)));
    StripKeepsInk(Head(s, maxLen - 10));
  }

  // The limit must exceed ten.  At ten the last resort cuts nothing off a long
  // word, so the loop stands still; below ten it cuts off too much.
  lemma SmallLimitsFail(c: char, n: nat, maxLen: int)
    requires IsLetter(c) && 0 <= maxLen <= 10 < n
    ensures var word := Word(c, n);
            var cut := Cut(word, maxLen);
            if maxLen == 10
            then Head(word, cut) == "" && Rest(word, cut) == word
            else Utf16Len(Head(word, cut)) > maxLen
  {
    WordIsCutLast(c, n, maxLen);
    LastResortFails(c, n, maxLen);
  }

  lemma LastResortFails(c: char, n: nat, maxLen: int)
    requires 0 <= maxLen <= 10 < n
    ensures var word := Word(c, n);
            if maxLen == 10
            then Head(word, maxLen - 10) == "" && Rest(word, maxLen - 10) == word
            else Utf16Len(Head(word, maxLen - 10)) > maxLen
  {
    if maxLen < 10 {
      Utf16LenBounds(Head(Word(c, n), maxLen - 10));
    }
  }
}
