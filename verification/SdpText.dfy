/** The item editing of rtc/util.go: the n-th item of the first line with a given prefix is found,
    and rewritten, by searching the text of a session description. */
module SdpText {
  import opened Text

  const CRLF: string := "\r\n"

  predicate At(s: string, p: string, i: int) {
    0 <= i && i + |p| <= |s| && s[i..i + |p|] == p
  }

  ghost predicate Has(s: string, p: string) {
    exists i :: At(s, p, i)
  }

  /** strings.Index */
  function Find(s: string, p: string): (i: int)
    ensures i == -1 || 0 <= i <= |s| - |p|
    ensures i == -1 <==> !Has(s, p)
    ensures i != -1 ==> At(s, p, i) && forall k :: At(s, p, k) ==> i <= k
  {
    FindFrom(s, p, 0)
  }

  function FindFrom(s: string, p: string, from: nat): (i: int)
    requires from <= |s|
    ensures i == -1 <==> forall k :: from <= k ==> !At(s, p, k)
    ensures i != -1 ==> from <= i && At(s, p, i) && forall k :: from <= k && At(s, p, k) ==> i <= k
    decreases |s| - from
  {
    if At(s, p, from) then from
    else if from == |s| then -1
    else FindFrom(s, p, from + 1)
  }

  lemma FindIs(s: string, p: string, i: int)
    requires At(s, p, i) && forall k :: 0 <= k < i ==> !At(s, p, k)
    ensures Find(s, p) == i
  {
  }

  // ---------- the line and its items ----------

  /** Where the first line with the prefix starts. */
  function Start(s: string, prefix: string): int {
    Find(s, prefix)
  }

  /** Where that line ends; -1 without such a line or without a line end. */
  function End(s: string, prefix: string): (e: int)
    ensures e == -1 || 0 <= Start(s, prefix) <= e <= |s| - 2
  {
    var b := Start(s, prefix);
    if b == -1 then -1
    else
      var length := Find(s[b..], CRLF);
      if length == -1 then -1 else b + length
  }

  // The items of the line from b to e, none if e is -1.
  function ItemsAt(s: string, b: int, e: int): seq<string>
    requires e != -1 ==> 0 <= b <= e <= |s|
  {
    if e == -1 then [] else Split(s[b..e], ' ')
  }

  // The text with the n-th item of that line replaced, if it has that many.
  function ReplaceAt(s: string, b: int, e: int, n: int, value: string): string
    requires e != -1 ==> 0 <= b <= e <= |s|
  {
    var items := ItemsAt(s, b, e);
    if 1 <= n <= |items| then s[..b] + Join(items[n - 1 := value], ' ') + s[e..] else s
  }

  /** The items of the first line with the prefix, none without such a line. */
  function Items(s: string, prefix: string): seq<string> {
    ItemsAt(s, Start(s, prefix), End(s, prefix))
  }

  /** getNthItemInALineOfSDP, for the n >= 1 that it can index with */
  function Get(s: string, prefix: string, n: nat): string
    requires n >= 1
  {
    if |Items(s, prefix)| < n then "" else Items(s, prefix)[n - 1]
  }

  /** What replaceNthItemInALineOfSDP makes of s. */
  function Replace(s: string, prefix: string, n: int, value: string): string {
    ReplaceAt(s, Start(s, prefix), End(s, prefix), n, value)
  }

  // What the loop has appended after i items.
  ghost function Rejoined(items: seq<string>, i: nat): string
    requires i <= |items|
  {
    if i == |items| then Join(items, ' ')
    else if i == 0 then ""
    else Join(items[..i], ' ') + " "
  }

  lemma {:induction false} JoinLast(items: seq<string>, item: string)
    requires items != []
    ensures Join(items + [item], ' ') == Join(items, ' ') + " " + item
  {
    if |items| > 1 {
      JoinLast(items[1..], item);
      assert (items + [item])[1..] == items[1..] + [item];
      assert items[0] + [' '] + (Join(items[1..], ' ') + " " + item) == Join(items, ' ') + " " + item;
    } else {
      assert (items + [item])[1..] == [item];
    }
  }

  lemma RejoinedNext(items: seq<string>, i: nat)
    requires i < |items|
    ensures Rejoined(items, i + 1) == Rejoined(items, i) + items[i] + if i != |items| - 1 then " " else ""
  {
    assert items[..i + 1] == items[..i] + [items[i]];
    assert i + 1 == |items| ==> items[..i + 1] == items;
    if i > 0 {
      JoinLast(items[..i], items[i]);
    }
  }

  lemma Append3(a: string, b: string, c: string, d: string)
    ensures a + (b + c + d) == a + b + c + d
  {
  }

  // The loop that joins the items again, with the new one in its place
  method Rejoin(head: string, items: seq<string>, n: int, new_: string) returns (ret: string)
    requires items != [] && n <= |items|
    ensures ret == head + Join(if 1 <= n then items[n - 1 := new_] else items, ' ')
  {
    ghost var edited := if 1 <= n then items[n - 1 := new_] else items;
    ret := head;
    for i := 0 to |items|
      invariant ret == head + Rejoined(edited, i)
    {
      RejoinedNext(edited, i);
      Append3(head, Rejoined(edited, i), edited[i], if i != |items| - 1 then " " else "");
      if i + 1 == n {
        ret := ret + new_;
      } else {
        ret := ret + items[i];
      }
      if i != |items| - 1 {
        ret := ret + " ";
      } else {
        assert ret + "" == ret;
      }
    }
  }

  lemma Cut(s: string, b: nat, e: nat)
    requires b <= e <= |s|
    ensures s == s[..b] + s[b..e] + s[e..]
  {
  }

  /** replaceNthItemInALineOfSDP */
  method ReplaceNthItem(s: string, linePrefix: string, n: int, new_: string) returns (ret: string)
    ensures ret == Replace(s, linePrefix, n, new_)
  {
    var subIndex := Find(s, linePrefix);
    if subIndex == -1 {
      return s;
    }
    var linefeedIndex := Find(s[subIndex..], CRLF);
    if linefeedIndex == -1 {
      return s;
    }
    var line := s[subIndex..subIndex + linefeedIndex];
    var items := Split(line, ' ');
    assert subIndex + linefeedIndex == End(s, linePrefix);
    assert items == Items(s, linePrefix);
    if |items| < n {
      return s;
    }
    Cut(s, subIndex, subIndex + linefeedIndex);
    ret := Rejoin(s[..subIndex], items, n, new_);
    ret := ret + s[subIndex + linefeedIndex..];
  }

  // ---------- searching in edited text ----------

  lemma AtInBoth(s: string, t: string, p: string, i: int, m: nat)
    requires m <= |s| && m <= |t| && s[..m] == t[..m] && i + |p| <= m
    ensures At(s, p, i) <==> At(t, p, i)
  {
    if 0 <= i {
      assert s[i..i + |p|] == s[..m][i..i + |p|];
      assert t[i..i + |p|] == t[..m][i..i + |p|];
    }
  }

  lemma AtInSuffix(s: string, b: nat, p: string, i: int)
    requires b <= |s| && 0 <= i
    ensures At(s[b..], p, i) <==> At(s, p, b + i)
  {
    if i + |p| <= |s| - b {
      assert s[b..][i..i + |p|] == s[b + i..b + i + |p|];
    }
  }

  lemma AtInSlice(s: string, b: nat, e: nat, p: string, i: int)
    requires b <= e <= |s| && At(s[b..e], p, i)
    ensures At(s, p, b + i)
  {
    assert s[b..e] == s[b..][..e - b];
    AtInBoth(s[b..], s[b..e], p, i, e - b);
    AtInSuffix(s, b, p, i);
  }

  lemma MatchedChars(s: string, p: string, i: int)
    ensures At(s, p, i) ==> forall j :: i <= j < i + |p| ==> s[j] == p[j - i]
  {
    if At(s, p, i) {
      forall j | i <= j < i + |p|
        ensures s[j] == p[j - i]
      {
        assert s[j] == s[i..i + |p|][j - i];
      }
    }
  }

  /** A text without the character at j is not found across j. */
  lemma NotAcross(s: string, p: string, i: int, j: nat)
    requires j < |s| && s[j] !in p && At(s, p, i)
    ensures i + |p| <= j || j < i
  {
    MatchedChars(s, p, i);
  }

  /** A text without the character c is found around a c exactly where it is found on one side. */
  lemma AtAround(a: string, c: char, b: string, p: string, i: int)
    requires p != "" && c !in p
    ensures At(a + [c] + b, p, i) <==> At(a, p, i) || At(b, p, i - |a| - 1)
  {
    var s := a + [c] + b;
    assert s[..|a|] == a && s[|a| + 1..] == b && s[|a|] == c;
    if i + |p| <= |a| {
      AtInBoth(s, a, p, i, |a|);
    } else if i > |a| {
      AtInSuffix(s, |a| + 1, p, i - |a| - 1);
    } else if At(s, p, i) {
      NotAcross(s, p, i, |a|);
    }
  }

  lemma {:induction false} HasInJoin(items: seq<string>, p: string)
    requires items != [] && p != "" && ' ' !in p
    ensures Has(Join(items, ' '), p) <==> exists k :: 0 <= k < |items| && Has(items[k], p)
  {
    if |items| > 1 {
      var rest := Join(items[1..], ' ');
      HasInJoin(items[1..], p);
      HasAround(items[0], ' ', rest, p);
      if k :| 0 <= k < |items[1..]| && Has(items[1..][k], p) {
        assert items[1..][k] == items[k + 1];
      }
      if k :| 0 <= k < |items| && Has(items[k], p) {
        assert k > 0 ==> items[1..][k - 1] == items[k];
      }
    }
  }

  lemma HasAround(a: string, c: char, b: string, p: string)
    requires p != "" && c !in p
    ensures Has(a + [c] + b, p) <==> Has(a, p) || Has(b, p)
  {
    forall i {
      AtAround(a, c, b, p, i);
    }
    if i :| At(b, p, i) {
      AtAround(a, c, b, p, i + |a| + 1);
      assert At(a + [c] + b, p, i + |a| + 1);
    }
    if i :| At(a, p, i) {
      AtAround(a, c, b, p, i);
      assert At(a + [c] + b, p, i);
    }
    if i :| At(a + [c] + b, p, i) {
      AtAround(a, c, b, p, i);
    }
  }

  /** Neither a space nor a line end. */
  ghost predicate Clean(value: string) {
    ' ' !in value && !Has(value, CRLF)
  }

  // Before its first line end a text has none.
  lemma NoneBeforeFirst(s: string, e: nat)
    requires e == Find(s, CRLF)
    ensures !Has(s[..e], CRLF)
  {
    forall i | At(s[..e], CRLF, i)
      ensures false
    {
      AtInSlice(s, 0, e, CRLF, i);
    }
  }

  lemma ItemsOfLineAreClean(line: string, k: nat)
    requires !Has(line, CRLF) && k < |Split(line, ' ')|
    ensures Clean(Split(line, ' ')[k])
  {
    HasInJoin(Split(line, ' '), CRLF);
  }

  lemma FirstLineEnd(s: string, b: nat, length: nat)
    requires b <= |s| && Find(s[b..], CRLF) == length
    ensures b + length <= |s| && !Has(s[b..b + length], CRLF) && At(s, CRLF, b + length)
  {
    assert s[b..b + length] == s[b..][..length];
    NoneBeforeFirst(s[b..], length);
    AtInSuffix(s, b, CRLF, length);
  }

  /** The line ends at the first line end after its start. */
  lemma LineOf(s: string, prefix: string)
    requires End(s, prefix) != -1
    ensures !Has(s[Start(s, prefix)..End(s, prefix)], CRLF) && At(s, CRLF, End(s, prefix))
  {
    FirstLineEnd(s, Start(s, prefix), End(s, prefix) - Start(s, prefix));
  }

  lemma ItemsAreClean(s: string, prefix: string, k: nat)
    requires k < |Items(s, prefix)|
    ensures Clean(Items(s, prefix)[k])
  {
    LineOf(s, prefix);
    ItemsOfLineAreClean(s[Start(s, prefix)..End(s, prefix)], k);
  }

  /** What is read never contains a space or a line end. */
  lemma GetIsClean(s: string, prefix: string, n: nat)
    requires n >= 1
    ensures Clean(Get(s, prefix, n))
  {
    if n <= |Items(s, prefix)| {
      ItemsAreClean(s, prefix, n - 1);
    } else {
      EmptyIsClean();
    }
  }

  lemma EmptyIsClean()
    ensures Clean("")
  {
  }

  /** The first line end after text without one. */
  lemma LineEnd(line: string, tail: string)
    requires !Has(line, CRLF) && At(tail, CRLF, 0)
    ensures Find(line + tail, CRLF) == |line|
  {
    var s := line + tail;
    assert s[|line|..] == tail;
    AtInSuffix(s, |line|, CRLF, 0);
    forall k | 0 <= k < |line|
      ensures !At(s, CRLF, k)
    {
      MatchedChars(s, CRLF, k);
      MatchedChars(tail, CRLF, 0);
      assert CRLF[0] == '\r' && CRLF[1] == '\n';
      assert k + 1 == |line| ==> s[k + 1] == tail[0];
      if k + 2 <= |line| {
        assert s[..|line|] == line;
        AtInBoth(s, line, CRLF, k, |line|);
      }
    }
    FindIs(s, CRLF, |line|);
  }

  /** What the search finds in a text made of a line between head and tail. */
  lemma LineIs(head: string, line: string, tail: string, prefix: string)
    requires !Has(line, CRLF) && At(tail, CRLF, 0)
    requires Start(head + line + tail, prefix) == |head|
    ensures End(head + line + tail, prefix) == |head| + |line|
    ensures Items(head + line + tail, prefix) == Split(line, ' ')
    ensures (head + line + tail)[..|head|] == head && (head + line + tail)[|head| + |line|..] == tail
  {
    ThreeParts(head, line, tail);
    LineEnd(line, tail);
  }

  lemma ThreeParts(head: string, line: string, tail: string)
    ensures var s := head + line + tail;
            && s[|head|..] == line + tail && s[..|head|] == head
            && s[|head|..|head| + |line|] == line && s[|head| + |line|..] == tail
  {
  }

  /** Without the prefix, without a line end behind it, or without so many items, nothing is read and
      nothing is replaced. */
  lemma NothingToEdit(s: string, prefix: string, n: nat, value: string)
    requires n >= 1
    requires !Has(s, prefix) || !Has(s[Find(s, prefix)..], CRLF)
             || n > |Split(s[Find(s, prefix)..Find(s, prefix) + Find(s[Find(s, prefix)..], CRLF)], ' ')|
    ensures Get(s, prefix, n) == "" && Replace(s, prefix, n, value) == s
  {
    hide At, Has, Find, Split;
    if Start(s, prefix) != -1 && Find(s[Start(s, prefix)..], CRLF) != -1 {
      assert End(s, prefix) == Start(s, prefix) + Find(s[Start(s, prefix)..], CRLF);
    } else {
      assert Items(s, prefix) == [];
    }
  }

  /** Replacing an item by itself is the identity. */
  lemma ReplaceByItself(s: string, prefix: string, n: nat)
    requires n >= 1
    ensures Replace(s, prefix, n, Get(s, prefix, n)) == s
  {
    var items := Items(s, prefix);
    if n <= |items| {
      Cut(s, Start(s, prefix), End(s, prefix));
      assert items[n - 1 := items[n - 1]] == items;
    }
  }

  // The first item is where it was.
  lemma HeadKept(items: seq<string>, n: nat, value: string)
    requires 2 <= n <= |items|
    ensures var line, line' := Join(items, ' '), Join(items[n - 1 := value], ' ');
            && |items[0]| < |line| && |items[0]| < |line'|
            && line[..|items[0]|] == items[0] == line'[..|items[0]|]
  {
  }

  // A prefix without spaces lies in the first item.
  lemma PrefixInFirstItem(items: seq<string>, prefix: string)
    requires items != [] && ' ' !in prefix && At(Join(items, ' '), prefix, 0)
    ensures |prefix| <= |items[0]|
  {
    if |items| > 1 {
      assert Join(items, ' ')[|items[0]|] == ' ';
      NotAcross(Join(items, ' '), prefix, 0, |items[0]|);
    }
  }

  // The prefix lies before the end of the line.
  lemma PrefixInLine(s: string, prefix: string)
    requires End(s, prefix) != -1 && '\r' !in prefix && prefix != ""
    ensures At(s[Start(s, prefix)..End(s, prefix)], prefix, 0)
  {
    var b, e := Start(s, prefix), End(s, prefix);
    LineOf(s, prefix);
    assert s[e] == s[e..e + 2][0] == '\r';
    NotAcross(s, prefix, b, e);
    assert s[b..e][0..|prefix|] == s[b..b + |prefix|];
  }

  // Where the text is the same up to the end of the first match, the first match is the same.
  lemma SameStart(s: string, t: string, prefix: string, m: nat)
    requires m <= |s| && m <= |t| && s[..m] == t[..m]
    requires Start(s, prefix) != -1 && Start(s, prefix) + |prefix| <= m
    ensures Start(t, prefix) == Start(s, prefix)
  {
    var b := Start(s, prefix);
    forall k | 0 <= k <= b
      ensures At(t, prefix, k) <==> At(s, prefix, k)
    {
      AtInBoth(s, t, prefix, k, m);
    }
    FindIs(t, prefix, b);
  }

  lemma StartKeptIn(head: string, items: seq<string>, tail: string, prefix: string, n: nat, value: string)
    requires 2 <= n <= |items| && |prefix| <= |items[0]|
    requires Start(head + Join(items, ' ') + tail, prefix) == |head|
    ensures Start(head + Join(items[n - 1 := value], ' ') + tail, prefix) == |head|
  {
    HeadKept(items, n, value);
    var line, line' := Join(items, ' '), Join(items[n - 1 := value], ' ');
    SameHead(head, line, line', tail, items[0]);
    SameStart(head + line + tail, head + line' + tail, prefix, |head| + |items[0]|);
  }

  // The line is found again where it was.
  lemma StartKept(s: string, prefix: string, n: nat, value: string)
    requires 2 <= n <= |Items(s, prefix)| && ' ' !in prefix && '\r' !in prefix && prefix != ""
    ensures Start(Replace(s, prefix, n, value), prefix) == Start(s, prefix)
  {
    Cut(s, Start(s, prefix), End(s, prefix));
    PrefixInLine(s, prefix);
    PrefixInFirstItem(Items(s, prefix), prefix);
    StartKeptIn(s[..Start(s, prefix)], Items(s, prefix), s[End(s, prefix)..], prefix, n, value);
  }

  lemma SameHead(head: string, line: string, line': string, tail: string, first: string)
    requires first <= line && first <= line'
    ensures (head + line + tail)[..|head| + |first|] == (head + line' + tail)[..|head| + |first|]
  {
  }

  // ---------- the laws ----------

  lemma EditedLine(s: string, prefix: string, n: nat, value: string)
    requires 1 <= n <= |Items(s, prefix)| && Clean(value)
    ensures !Has(Join(Items(s, prefix)[n - 1 := value], ' '), CRLF)
    ensures Split(Join(Items(s, prefix)[n - 1 := value], ' '), ' ') == Items(s, prefix)[n - 1 := value]
  {
    var items := Items(s, prefix);
    forall k | 0 <= k < |items|
      ensures Clean(items[k])
    {
      ItemsAreClean(s, prefix, k);
    }
    HasInJoin(items[n - 1 := value], CRLF);
    SplitOfJoin(items[n - 1 := value], ' ');
  }

  // The same with the parts of the text named.
  lemma ReplaceChangesOneItemIn(s: string, prefix: string, n: nat, value: string, head: string, line: string, tail: string)
    requires 2 <= n <= |Items(s, prefix)| && Clean(value)
    requires ' ' !in prefix && '\r' !in prefix && prefix != ""
    requires head == s[..Start(s, prefix)] && tail == s[End(s, prefix)..]
    requires line == Join(Items(s, prefix)[n - 1 := value], ' ')
    ensures Replace(s, prefix, n, value) == head + line + tail
    ensures Start(head + line + tail, prefix) == |head|
    ensures !Has(line, CRLF) && At(tail, CRLF, 0)
    ensures Split(line, ' ') == Items(s, prefix)[n - 1 := value]
  {
    StartKept(s, prefix, n, value);
    EditedLine(s, prefix, n, value);
    LineOf(s, prefix);
    AtInSuffix(s, End(s, prefix), CRLF, 0);
  }

  /** A clean value is the only item that changes, and nothing outside the line does. */
  lemma ReplaceChangesOneItem(s: string, prefix: string, n: nat, value: string)
    requires 2 <= n <= |Items(s, prefix)| && Clean(value)
    requires ' ' !in prefix && '\r' !in prefix && prefix != ""
    ensures var s' := Replace(s, prefix, n, value);
            && Start(s', prefix) == Start(s, prefix)
            && End(s', prefix) != -1
            && Items(s', prefix) == Items(s, prefix)[n - 1 := value]
            && s'[..Start(s', prefix)] == s[..Start(s, prefix)]
            && s'[End(s', prefix)..] == s[End(s, prefix)..]
  {
    var head, line, tail := s[..Start(s, prefix)], Join(Items(s, prefix)[n - 1 := value], ' '), s[End(s, prefix)..];
    ReplaceChangesOneItemIn(s, prefix, n, value, head, line, tail);
    LineIs(head, line, tail, prefix);
  }

  /** Reading back what was written gives the value exactly when it is clean. */
  lemma GetAfterReplace(s: string, prefix: string, n: nat, value: string)
    requires 2 <= n <= |Items(s, prefix)|
    requires ' ' !in prefix && '\r' !in prefix && prefix != ""
    ensures Get(Replace(s, prefix, n, value), prefix, n) == value <==> Clean(value)
  {
    GetIsClean(Replace(s, prefix, n, value), prefix, n);
    if Clean(value) {
      ReplaceChangesOneItem(s, prefix, n, value);
    }
  }

  lemma OverwriteAt(s: string, e: int, s': string, e': int, b: int, n: nat, first: string, second: string)
    requires 0 <= b <= e <= |s| && b <= e' <= |s'|
    requires s'[..b] == s[..b] && s'[e'..] == s[e..] && 1 <= n <= |ItemsAt(s, b, e)|
    requires ItemsAt(s', b, e') == ItemsAt(s, b, e)[n - 1 := first]
    ensures ReplaceAt(s', b, e', n, second) == ReplaceAt(s, b, e, n, second)
  {
    assert ItemsAt(s', b, e')[n - 1 := second] == ItemsAt(s, b, e)[n - 1 := second];
  }

  /** A second replacement overwrites the first. */
  lemma ReplaceOverwrites(s: string, prefix: string, n: nat, first: string, second: string)
    requires n >= 2 && Clean(first)
    requires ' ' !in prefix && '\r' !in prefix && prefix != ""
    ensures Replace(Replace(s, prefix, n, first), prefix, n, second) == Replace(s, prefix, n, second)
  {
    var items := Items(s, prefix);
    if n <= |items| {
      var s' := Replace(s, prefix, n, first);
      ReplaceChangesOneItem(s, prefix, n, first);
      OverwriteAt(s, End(s, prefix), s', End(s', prefix), Start(s, prefix), n, first, second);
    }
  }
}
