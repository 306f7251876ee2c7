/** removeNthLineOfSDP of rtc/util.go: the line of the n-th match of a prefix is cut out of the text. */
module SdpRemoval {
  import opened SdpText
  import opened SdpLines

  // A position found in the rest of a text, in the whole text.
  function Shift(m: nat, i: int): (j: int)
    ensures j == -1 <==> i < 0
  {
    if i < 0 then -1 else m + i
  }

  /** Where the n-th match is, each search starting behind the match before. */
  function NthFind(s: string, p: string, n: nat): (i: int)
    requires n >= 1
    ensures -1 <= i <= |s|
    decreases n
  {
    var i := Find(s, p);
    if n == 1 || i == -1 then i else Shift(i + |p|, NthFind(s[i + |p|..], p, n - 1))
  }

  // The text without the line that ends length characters after b, -1 for no line end.
  function CutAt(s: string, b: nat, length: int): string
    requires b <= |s| && (length == -1 || 0 <= length <= |s| - b - 2)
  {
    if length == -1 then s else s[..b] + s[b + length + 2..]
  }

  // The text without what is between b and the next line end, and without that line end.
  function CutLine(s: string, b: nat): string
    requires b <= |s|
  {
    assert |CRLF| == 2;
    CutAt(s, b, Find(s[b..], CRLF))
  }

  /** What removeNthLineOfSDP makes of s; for n < 1 it cuts at the first character. */
  function Removed(s: string, p: string, n: int): string {
    var b := if n < 1 then 0 else NthFind(s, p, n);
    if b == -1 then s else CutLine(s, b)
  }

  lemma NextSearch(s: string, p: string, cur: nat, n: nat)
    requires cur <= |s| && n >= 1
    ensures var i := Find(s[cur..], p);
            Shift(cur, NthFind(s[cur..], p, n)) ==
              if n == 1 || i == -1 then Shift(cur, i)
              else Shift(cur + i + |p|, NthFind(s[cur + i + |p|..], p, n - 1))
  {
    var i := Find(s[cur..], p);
    if n > 1 && i != -1 {
      assert s[cur..][i + |p|..] == s[cur + i + |p|..];
    }
  }

  // The loop: the position of the n-th match
  method SearchNth(s: string, linePrefix: string, n: int) returns (position: int)
    ensures position == if n < 1 then 0 else NthFind(s, linePrefix, n)
  {
    hide At, Find;
    var subIndex, curIndex := 0, 0;
    assert s[0..] == s;
    var i := 0;
    while i < n
      invariant 0 <= i && (i <= n || i == 0)
      invariant 0 <= curIndex <= |s|
      invariant i < n ==> NthFind(s, linePrefix, n) == Shift(curIndex, NthFind(s[curIndex..], linePrefix, n - i))
      invariant i >= n ==> curIndex + subIndex == if n < 1 then 0 else NthFind(s, linePrefix, n)
    {
      NextSearch(s, linePrefix, curIndex, n - i);
      subIndex := Find(s[curIndex..], linePrefix);
      if subIndex == -1 {
        return -1;
      }
      if i != n - 1 {
        curIndex := curIndex + subIndex + |linePrefix|;
      }
      i := i + 1;
    }
    return curIndex + subIndex;
  }

  method RemoveNthLine(s: string, linePrefix: string, n: int) returns (r: string)
    ensures r == Removed(s, linePrefix, n)
  {
    var position := SearchNth(s, linePrefix, n);
    if position == -1 {
      return s;
    }
    var linefeedIndex := Find(s[position..], CRLF);
    if linefeedIndex == -1 {
      return s;
    }
    return s[..position] + s[position + linefeedIndex + 2..];
  }

  /** The n-th line that starts with the prefix, -1 without it. */
  function NthLine(lines: seq<string>, prefix: string, n: nat): (i: int)
    requires n >= 1
    ensures -1 <= i < |lines| && (i != -1 ==> At(lines[i], prefix, 0))
  {
    if lines == [] then -1
    else if At(lines[0], prefix, 0) && n == 1 then 0
    else
      var more := NthLine(lines[1..], prefix, if At(lines[0], prefix, 0) then n - 1 else n);
      if more == -1 then -1 else more + 1
  }

  /** The lines without the n-th one that starts with the prefix. */
  function WithoutNth(lines: seq<string>, prefix: string, n: nat): seq<string>
    requires n >= 1
  {
    var i := NthLine(lines, prefix, n);
    if i == -1 then lines else lines[..i] + lines[i + 1..]
  }

  // Where line i starts in the text.
  function Offset(lines: seq<string>, i: nat): nat
    requires i <= |lines|
  {
    if i == 0 then 0 else |lines[0]| + 2 + Offset(lines[1..], i - 1)
  }

  lemma NthBehind(head: string, rest: string, p: string, n: nat)
    requires OnlyBehind(head, rest, p) && n >= 1
    ensures NthFind(head + rest, p, n) == Shift(|head|, NthFind(rest, p, n))
  {
    StartsBehind(head, rest, p);
    NthBehindFrom(head, rest, p, n);
  }

  lemma NthBehindFrom(head: string, rest: string, p: string, n: nat)
    requires n >= 1 && Find(head + rest, p) == Shift(|head|, Find(rest, p))
    ensures NthFind(head + rest, p, n) == Shift(|head|, NthFind(rest, p, n))
  {
    hide At, Find;
    if Find(rest, p) != -1 {
      SliceBehind(head, rest, Find(rest, p) + |p|);
    }
  }

  // Behind the prefix at the start of a line the prefix is not found before the next line.
  lemma RestOfLineIsPassed(line: string, rest: string, p: string)
    requires Prefix(p) && OnlyAtStart(line, p) && At(line, p, 0)
    ensures OnlyBehind(line[|p|..] + CRLF, rest, p)
  {
    forall i | i >= 0
      ensures !At(line[|p|..], p, i)
    {
      AtInSuffix(line, |p|, p, i);
    }
    LineIsPassed(line[|p|..], rest, p);
  }

  lemma NthAfterFirst(line: string, rest: string, p: string, n: nat)
    requires Prefix(p) && OnlyAtStart(line, p) && At(line, p, 0) && n >= 2
    ensures NthFind(line + CRLF + rest, p, n) == Shift(|line| + 2, NthFind(rest, p, n - 1))
  {
    StartsInFirst(line, rest, p);
    NthInRestOfLine(line, rest, p, n - 1);
    hide At, Find, OnlyAtStart;
    BehindPrefix(line, rest, |p|);
    PrefixCut(line + CRLF + rest, line[|p|..] + CRLF, rest, p, n);
  }

  lemma NthInRestOfLine(line: string, rest: string, p: string, n: nat)
    requires Prefix(p) && OnlyAtStart(line, p) && At(line, p, 0) && n >= 1
    ensures |p| <= |line|
    ensures NthFind(line[|p|..] + CRLF + rest, p, n) == Shift(|line[|p|..] + CRLF|, NthFind(rest, p, n))
  {
    RestOfLineIsPassed(line, rest, p);
    NthBehind(line[|p|..] + CRLF, rest, p, n);
  }

  lemma PrefixCut(s: string, tail: string, rest: string, p: string, n: nat)
    requires n >= 2 && Start(s, p) == 0 && |s| == |p| + |tail| + |rest| && s[|p|..] == tail + rest
    requires NthFind(tail + rest, p, n - 1) == Shift(|tail|, NthFind(rest, p, n - 1))
    ensures NthFind(s, p, n) == Shift(|p| + |tail|, NthFind(rest, p, n - 1))
  {
    FindIsStart(s, p, n);
  }

  lemma BehindPrefix(line: string, rest: string, m: nat)
    requires m <= |line|
    ensures (line + CRLF + rest)[m..] == line[m..] + CRLF + rest
  {
  }

  lemma FirstInFirst(line: string, rest: string, p: string)
    requires Prefix(p) && OnlyAtStart(line, p) && At(line, p, 0)
    ensures NthFind(line + CRLF + rest, p, 1) == 0
  {
    StartsInFirst(line, rest, p);
  }

  lemma FindIsStart(s: string, p: string, n: nat)
    requires n >= 2 && Start(s, p) == 0
    ensures NthFind(s, p, n) == Shift(|p|, NthFind(s[|p|..], p, n - 1))
  {
  }

  /** The n-th match in the text is the start of the n-th line that has the prefix. */
  lemma {:induction false} NthOfRender(lines: seq<string>, p: string, n: nat)
    requires Prefix(p) && Tidy(lines, p) && n >= 1
    ensures var i := NthLine(lines, p, n);
            NthFind(Render(lines), p, n) == if i == -1 then -1 else Offset(lines, i)
  {
    hide At, Find, NthFind;
    if lines != [] {
      var line, rest := lines[0], Render(lines[1..]);
      if !At(line, p, 0) {
        LineIsPassed(line, rest, p);
        NthBehind(line + CRLF, rest, p, n);
        NthOfRender(lines[1..], p, n);
      } else if n == 1 {
        FirstInFirst(line, rest, p);
      } else {
        NthAfterFirst(line, rest, p, n);
        NthOfRender(lines[1..], p, n - 1);
      }
    } else {
      NothingInEmpty(p, n);
    }
  }

  lemma NothingInEmpty(p: string, n: nat)
    requires p != "" && n >= 1
    ensures NthFind("", p, n) == -1
  {
  }

  lemma CutFirst(line: string, rest: string)
    requires !Has(line, CRLF)
    ensures CutLine(line + CRLF + rest, 0) == rest
  {
    var s, tail := line + CRLF + rest, CRLF + rest;
    assert s == line + tail && s[0..] == s;
    assert At(tail, CRLF, 0);
    LineEnd(line, tail);
  }

  lemma CutAtBehind(head: string, rest: string, b: nat, length: int)
    requires b <= |rest| && (length == -1 || 0 <= length <= |rest| - b - 2)
    ensures CutAt(head + rest, |head| + b, length) == head + CutAt(rest, b, length)
  {
    if length != -1 {
      SliceBehind(head, rest, b);
      SliceBehind(head, rest, b + length + 2);
      assert head + rest[..b] + rest[b + length + 2..] == head + (rest[..b] + rest[b + length + 2..]);
    }
  }

  lemma CutBehind(head: string, rest: string, b: nat)
    requires b <= |rest|
    ensures CutLine(head + rest, |head| + b) == head + CutLine(rest, b)
  {
    assert |CRLF| == 2;
    SliceBehind(head, rest, b);
    CutAtBehind(head, rest, b, Find(rest[b..], CRLF));
  }

  lemma OffsetInText(lines: seq<string>, i: nat)
    requires i <= |lines|
    ensures Offset(lines, i) <= |Render(lines)|
  {
  }

  /** Cutting at the start of a line takes that line. */
  lemma {:induction false} CutOfRender(lines: seq<string>, i: nat)
    requires i < |lines| && !Has(lines[i], CRLF)
    ensures Offset(lines, i) <= |Render(lines)|
    ensures CutLine(Render(lines), Offset(lines, i)) == Render(lines[..i] + lines[i + 1..])
  {
    hide At, Has, Find, CutLine;
    OffsetInText(lines, i);
    var line, rest := lines[0], Render(lines[1..]);
    if i == 0 {
      CutFirst(line, rest);
      assert lines[..0] + lines[1..] == lines[1..];
    } else {
      CutOfRender(lines[1..], i - 1);
      CutBehind(line + CRLF, rest, Offset(lines[1..], i - 1));
      assert lines[..i] + lines[i + 1..] == [line] + (lines[1..][..i - 1] + lines[1..][i..]);
    }
  }

  /** Removing the n-th match's line in the text removes the n-th line that has the prefix. */
  lemma RemovedOfRender(lines: seq<string>, p: string, n: nat)
    requires Prefix(p) && Tidy(lines, p) && n >= 1
    ensures Removed(Render(lines), p, n) == Render(WithoutNth(lines, p, n))
  {
    NthOfRender(lines, p, n);
    var i := NthLine(lines, p, n);
    if i != -1 {
      CutOfRender(lines, i);
    }
  }

  /** Without the prefix, or without a line end at all, nothing is removed. */
  lemma NothingToRemove(s: string, p: string, n: nat)
    requires n >= 1 && (!Has(s, p) || !Has(s, CRLF))
    ensures Removed(s, p, n) == s
  {
    if Has(s, p) && NthFind(s, p, n) != -1 {
      var b := NthFind(s, p, n);
      forall i | i >= 0
        ensures !At(s[b..], CRLF, i)
      {
        AtInSuffix(s, b, CRLF, i);
      }
      assert Find(s[b..], CRLF) == -1;
    }
  }

  /** Asked for line 0 or less, it removes the first line whatever its prefix. */
  lemma RemovedZeroth(lines: seq<string>, p: string, n: int)
    requires n < 1 && lines != [] && !Has(lines[0], CRLF)
    ensures Removed(Render(lines), p, n) == Render(lines[1..])
  {
    CutFirst(lines[0], Render(lines[1..]));
  }
}
