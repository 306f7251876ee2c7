/** A session description as the lines it is made of (section 5 of RFC 8866), and what the searches
    of rtc/util.go in its text amount to there. */
module SdpLines {
  import opened Text
  import opened SdpText

  /** The text: every line with its line end. */
  function Render(lines: seq<string>): string {
    if lines == [] then "" else lines[0] + CRLF + Render(lines[1..])
  }

  /** The first line that starts with the prefix, -1 for none. */
  function FirstLine(lines: seq<string>, prefix: string): (i: int)
    ensures i == -1 <==> forall k :: 0 <= k < |lines| ==> !At(lines[k], prefix, 0)
    ensures i != -1 ==> 0 <= i < |lines| && At(lines[i], prefix, 0)
    ensures i != -1 ==> forall k :: 0 <= k < i ==> !At(lines[k], prefix, 0)
  {
    if lines == [] then -1
    else if At(lines[0], prefix, 0) then 0
    else
      var i := FirstLine(lines[1..], prefix);
      assert forall k :: 1 <= k < |lines| ==> lines[k] == lines[1..][k - 1];
      if i == -1 then -1 else i + 1
  }

  /** A line with its n-th item replaced, if it has that many. */
  function EditLine(line: string, n: nat, value: string): string
    requires n >= 1
  {
    var items := Split(line, ' ');
    if n <= |items| then Join(items[n - 1 := value], ' ') else line
  }

  /** The lines with the first one that has the prefix edited. */
  function Edit(lines: seq<string>, prefix: string, n: nat, value: string): seq<string>
    requires n >= 1
  {
    var i := FirstLine(lines, prefix);
    if i == -1 then lines else lines[i := EditLine(lines[i], n, value)]
  }

  /** The n-th item of the first line that has the prefix, "" without it. */
  function ItemOf(lines: seq<string>, prefix: string, n: nat): string
    requires n >= 1
  {
    var i := FirstLine(lines, prefix);
    if i == -1 || |Split(lines[i], ' ')| < n then "" else Split(lines[i], ' ')[n - 1]
  }

  /** The prefix is found at the start of the line or not at all. */
  ghost predicate OnlyAtStart(line: string, prefix: string) {
    forall i :: i > 0 ==> !At(line, prefix, i)
  }

  /** Lines without line ends, in which the prefix occurs at the start only. */
  ghost predicate Tidy(lines: seq<string>, prefix: string) {
    forall k :: 0 <= k < |lines| ==> !Has(lines[k], CRLF) && OnlyAtStart(lines[k], prefix)
  }

  /** A prefix that cannot be cut by a line end. */
  predicate Prefix(p: string) {
    p != "" && '\r' !in p && '\n' !in p
  }

  // In a line and what follows it, the prefix is at the start of the line or in what follows.
  lemma AtInLines(line: string, rest: string, prefix: string, i: int)
    requires Prefix(prefix) && OnlyAtStart(line, prefix)
    ensures At(line + CRLF + rest, prefix, i) <==> (i == 0 && At(line, prefix, 0)) || At(rest, prefix, i - |line| - 2)
  {
    assert line + CRLF + rest == line + ['\r'] + (['\n'] + rest);
    AtAround(line, '\r', ['\n'] + rest, prefix, i);
    assert "" + ['\n'] + rest == ['\n'] + rest;
    AtAround("", '\n', rest, prefix, i - |line| - 1);
  }

  lemma StartsInFirst(line: string, rest: string, prefix: string)
    requires Prefix(prefix) && OnlyAtStart(line, prefix) && At(line, prefix, 0)
    ensures Start(line + CRLF + rest, prefix) == 0
  {
    AtInLines(line, rest, prefix, 0);
    FindIs(line + CRLF + rest, prefix, 0);
  }

  // The first line has the prefix: the search finds that line.
  lemma FoundInFirst(line: string, rest: string, prefix: string)
    requires Prefix(prefix) && OnlyAtStart(line, prefix) && !Has(line, CRLF) && At(line, prefix, 0)
    ensures var s := line + CRLF + rest;
            Start(s, prefix) == 0 && End(s, prefix) == |line| && Items(s, prefix) == Split(line, ' ')
  {
    var tail := CRLF + rest;
    assert At(tail, CRLF, 0);
    hide At, Find;
    StartsInFirst(line, rest, prefix);
    assert line + CRLF + rest == "" + line + tail;
    LineIs("", line, tail, prefix);
  }

  // Nothing is found before rest.
  ghost predicate OnlyBehind(head: string, rest: string, prefix: string) {
    forall i :: At(head + rest, prefix, i) <==> At(rest, prefix, i - |head|)
  }

  lemma StartsBehind(head: string, rest: string, prefix: string)
    requires OnlyBehind(head, rest, prefix)
    ensures Start(head + rest, prefix) == if Start(rest, prefix) == -1 then -1 else |head| + Start(rest, prefix)
  {
    var b := Start(rest, prefix);
    if b == -1 {
      assert !Has(head + rest, prefix);
    } else {
      assert At(head + rest, prefix, |head| + b);
      FindIs(head + rest, prefix, |head| + b);
    }
  }

  lemma SliceBehind(head: string, rest: string, b: nat)
    requires b <= |rest|
    ensures (head + rest)[|head| + b..] == rest[b..] && (head + rest)[..|head| + b] == head + rest[..b]
  {
  }

  lemma LineBehind(head: string, rest: string, b: nat, e: nat)
    requires b <= e <= |rest|
    ensures (head + rest)[|head| + b..|head| + e] == rest[b..e]
  {
  }

  lemma EndsBehind(head: string, rest: string, prefix: string)
    requires OnlyBehind(head, rest, prefix)
    ensures End(head + rest, prefix) == if End(rest, prefix) == -1 then -1 else |head| + End(rest, prefix)
  {
    StartsBehind(head, rest, prefix);
    if Start(rest, prefix) != -1 {
      SliceBehind(head, rest, Start(rest, prefix));
      SameEnd(head + rest, rest, prefix);
    }
  }

  // The search for the line end is the same search.
  lemma SameEnd(s: string, t: string, prefix: string)
    requires Start(s, prefix) != -1 && Start(t, prefix) != -1
    requires s[Start(s, prefix)..] == t[Start(t, prefix)..]
    ensures End(t, prefix) == -1 <==> End(s, prefix) == -1
    ensures End(t, prefix) != -1 ==> End(s, prefix) - Start(s, prefix) == End(t, prefix) - Start(t, prefix)
  {
  }

  // The line found in head + rest is the line found in rest.
  ghost predicate SameLine(head: string, rest: string, prefix: string) {
    && End(head + rest, prefix) == (if End(rest, prefix) == -1 then -1 else |head| + End(rest, prefix))
    && Start(head + rest, prefix) == (if Start(rest, prefix) == -1 then -1 else |head| + Start(rest, prefix))
  }

  // The first line has not: the search goes on behind it.
  lemma FoundBehind(head: string, rest: string, prefix: string)
    requires OnlyBehind(head, rest, prefix)
    ensures SameLine(head, rest, prefix)
  {
    StartsBehind(head, rest, prefix);
    EndsBehind(head, rest, prefix);
  }

  lemma ItemsAtBehind(head: string, rest: string, b: int, e: int)
    requires e != -1 ==> 0 <= b <= e <= |rest|
    ensures ItemsAt(head + rest, |head| + b, if e == -1 then -1 else |head| + e) == ItemsAt(rest, b, e)
  {
    if e != -1 {
      LineBehind(head, rest, b, e);
    }
  }

  lemma ItemsBehind(head: string, rest: string, prefix: string)
    requires SameLine(head, rest, prefix)
    ensures Items(head + rest, prefix) == Items(rest, prefix)
  {
    ItemsAtBehind(head, rest, Start(rest, prefix), End(rest, prefix));
  }

  lemma LineIsPassed(line: string, rest: string, prefix: string)
    requires Prefix(prefix) && OnlyAtStart(line, prefix) && !At(line, prefix, 0)
    ensures OnlyBehind(line + CRLF, rest, prefix)
  {
    forall i
      ensures At(line + CRLF + rest, prefix, i) <==> At(rest, prefix, i - |line + CRLF|)
    {
      AtInLines(line, rest, prefix, i);
    }
  }

  lemma LineIsPassedReading(line: string, rest: string, prefix: string)
    requires Prefix(prefix) && OnlyAtStart(line, prefix) && !At(line, prefix, 0)
    ensures Items(line + CRLF + rest, prefix) == Items(rest, prefix)
  {
    LineIsPassed(line, rest, prefix);
    FoundBehind(line + CRLF, rest, prefix);
    ItemsBehind(line + CRLF, rest, prefix);
  }

  lemma NoItemsInEmpty(prefix: string)
    requires prefix != ""
    ensures Items("", prefix) == []
  {
    assert forall i :: !At("", prefix, i);
  }

  /** The items found in the text are those of the first line that has the prefix. */
  lemma {:induction false} ItemsOfRender(lines: seq<string>, prefix: string)
    requires Prefix(prefix) && Tidy(lines, prefix)
    ensures var i := FirstLine(lines, prefix);
            Items(Render(lines), prefix) == if i == -1 then [] else Split(lines[i], ' ')
  {
    hide At, Find, Items;
    if lines == [] {
      NoItemsInEmpty(prefix);
    }
    if lines != [] {
      var line, rest := lines[0], Render(lines[1..]);
      if At(line, prefix, 0) {
        FoundInFirst(line, rest, prefix);
      } else {
        LineIsPassedReading(line, rest, prefix);
        ItemsOfRender(lines[1..], prefix);
      }
    }
  }

  /** Reading an item in the text reads it in the lines. */
  lemma GetOfRender(lines: seq<string>, prefix: string, n: nat)
    requires Prefix(prefix) && Tidy(lines, prefix) && n >= 1
    ensures Get(Render(lines), prefix, n) == ItemOf(lines, prefix, n)
  {
    ItemsOfRender(lines, prefix);
  }

  lemma EditBehind(lines: seq<string>, prefix: string, n: nat, value: string)
    requires lines != [] && !At(lines[0], prefix, 0) && n >= 1
    ensures Edit(lines, prefix, n, value) == [lines[0]] + Edit(lines[1..], prefix, n, value)
  {
  }

  lemma ReplaceAtBehind(head: string, rest: string, b: int, e: int, n: nat, value: string)
    requires e != -1 ==> 0 <= b <= e <= |rest|
    ensures ReplaceAt(head + rest, |head| + b, if e == -1 then -1 else |head| + e, n, value)
            == head + ReplaceAt(rest, b, e, n, value)
  {
    ItemsAtBehind(head, rest, b, e);
    if 1 <= n <= |ItemsAt(rest, b, e)| {
      Reassemble(head, rest, b, e, Join(ItemsAt(rest, b, e)[n - 1 := value], ' '));
    }
  }

  lemma ReplaceBehind(head: string, rest: string, prefix: string, n: nat, value: string)
    requires SameLine(head, rest, prefix)
    ensures Replace(head + rest, prefix, n, value) == head + Replace(rest, prefix, n, value)
  {
    ReplaceAtBehind(head, rest, Start(rest, prefix), End(rest, prefix), n, value);
  }

  lemma Reassemble(head: string, rest: string, b: nat, e: nat, line: string)
    requires b <= e <= |rest|
    ensures (head + rest)[..|head| + b] + line + (head + rest)[|head| + e..] == head + (rest[..b] + line + rest[e..])
  {
    SliceBehind(head, rest, b);
    SliceBehind(head, rest, e);
    assert head + rest[..b] + line + rest[e..] == head + (rest[..b] + line + rest[e..]);
  }

  lemma LineIsPassedReplacing(line: string, rest: string, prefix: string, n: nat, value: string)
    requires Prefix(prefix) && OnlyAtStart(line, prefix) && !At(line, prefix, 0)
    ensures Replace(line + CRLF + rest, prefix, n, value) == line + CRLF + Replace(rest, prefix, n, value)
  {
    LineIsPassed(line, rest, prefix);
    FoundBehind(line + CRLF, rest, prefix);
    ReplaceBehind(line + CRLF, rest, prefix, n, value);
  }

  /** Replacing an item in the text replaces it in the lines. */
  lemma {:induction false} ReplaceOfRender(lines: seq<string>, prefix: string, n: nat, value: string)
    requires Prefix(prefix) && Tidy(lines, prefix) && n >= 1
    ensures Replace(Render(lines), prefix, n, value) == Render(Edit(lines, prefix, n, value))
  {
    if lines != [] {
      var line, rest := lines[0], Render(lines[1..]);
      if At(line, prefix, 0) {
        FoundInFirst(line, rest, prefix);
        ReplaceInFirst(line, rest, prefix, n, value);
        assert lines[0 := EditLine(line, n, value)][1..] == lines[1..];
      } else {
        LineIsPassedReplacing(line, rest, prefix, n, value);
        ReplaceOfRender(lines[1..], prefix, n, value);
        EditBehind(lines, prefix, n, value);
      }
    }
  }

  lemma Regroup(a: string, b: string, c: string)
    ensures a + b + c == a + (b + c) && (a + (b + c))[|a|..] == b + c
    ensures (a + (b + c))[..0] + a == a
  {
  }

  lemma ReplaceInFirst(line: string, rest: string, prefix: string, n: nat, value: string)
    requires Prefix(prefix) && OnlyAtStart(line, prefix) && !Has(line, CRLF) && At(line, prefix, 0) && n >= 1
    ensures Replace(line + CRLF + rest, prefix, n, value) == EditLine(line, n, value) + CRLF + rest
  {
    FoundInFirst(line, rest, prefix);
    Regroup(line, CRLF, rest);
    Regroup(EditLine(line, n, value), CRLF, rest);
  }
}
