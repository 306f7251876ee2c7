/** What rtc/media.go makes of the session descriptions that pass through it: the relay address and
    port written over the local ones, and the audio section cut out of the remote ones. */
module MediaSdp {
  import opened Text
  import opened SdpText
  import opened SdpLines

  const CANDIDATE: string := "a=candidate"
  const CONNECTION: string := "c=IN"
  const VIDEO: string := "m=video"
  const AUDIO: string := "m=audio"

  predicate Marker(q: string) {
    q == CANDIDATE || q == CONNECTION || q == VIDEO || q == AUDIO
  }

  lemma MarkersAreWhole(q: string)
    requires Marker(q)
    ensures Prefix(q) && ' ' !in q
  {
  }

  /** A line starts with a marker when it starts with that text, and with no less. */
  lemma MarkersAsText(line: string)
    ensures At(line, CANDIDATE, 0) <==> "a=candidate" <= line
    ensures At(line, CONNECTION, 0) <==> "c=IN" <= line
    ensures At(line, VIDEO, 0) <==> "m=video" <= line
    ensures At(line, AUDIO, 0) <==> "m=audio" <= line
  {
  }

  // A line starts with one marker only.
  lemma MarkersDiffer(line: string, p: string, q: string)
    requires Marker(p) && Marker(q) && At(line, p, 0) && At(line, q, 0)
    ensures p == q
  {
    MatchedChars(line, p, 0);
    MatchedChars(line, q, 0);
    assert line[0] == p[0] == q[0] && line[2] == p[2] == q[2];
  }

  // ---------- the relay rewrite ----------

  function Relayed(sdp: string): string {
    var relayip, relayport := Get(sdp, CANDIDATE, 5), Get(sdp, CANDIDATE, 6);
    Replace(Replace(Replace(sdp, CONNECTION, 3, relayip), VIDEO, 2, relayport), AUDIO, 2, relayport)
  }

  /** The rewriting of an offer or answer for a relay server. */
  method RewriteForRelay(sdp: string) returns (newsdp: string)
    ensures newsdp == Relayed(sdp)
  {
    newsdp := sdp;
    var relayip := Get(newsdp, CANDIDATE, 5);
    var relayport := Get(newsdp, CANDIDATE, 6);
    newsdp := ReplaceNthItem(newsdp, CONNECTION, 3, relayip);
    newsdp := ReplaceNthItem(newsdp, VIDEO, 2, relayport);
    newsdp := ReplaceNthItem(newsdp, AUDIO, 2, relayport);
  }

  /** The same on lines. */
  function RelayedLines(lines: seq<string>): seq<string> {
    var relayip, relayport := ItemOf(lines, CANDIDATE, 5), ItemOf(lines, CANDIDATE, 6);
    Edit(Edit(Edit(lines, CONNECTION, 3, relayip), VIDEO, 2, relayport), AUDIO, 2, relayport)
  }

  /** No marker but at the start of a line, and no line end inside a line. */
  ghost predicate AllTidy(lines: seq<string>) {
    forall q :: Marker(q) ==> Tidy(lines, q)
  }

  // What may be written into a line without making it untidy.
  ghost predicate Harmless(value: string) {
    Clean(value) && forall q :: Marker(q) ==> !Has(value, q)
  }

  lemma StartOfJoin(items: seq<string>, q: string)
    requires items != [] && q != "" && ' ' !in q
    ensures At(Join(items, ' '), q, 0) <==> At(items[0], q, 0)
  {
    if |items| > 1 {
      AtAround(items[0], ' ', Join(items[1..], ' '), q, 0);
    }
  }

  lemma OnlyAtStartAround(a: string, b: string, q: string)
    requires q != "" && ' ' !in q
    ensures OnlyAtStart(a + [' '] + b, q) <==> OnlyAtStart(a, q) && !Has(b, q)
  {
    forall i
      ensures At(a + [' '] + b, q, i) <==> At(a, q, i) || At(b, q, i - |a| - 1)
    {
      AtAround(a, ' ', b, q, i);
    }
    forall i | At(b, q, i)
      ensures At(a + [' '] + b, q, i + |a| + 1)
    {
      AtAround(a, ' ', b, q, i + |a| + 1);
    }
  }

  /** A line has the marker only at its start when its first item has, and the others have it nowhere. */
  lemma OnlyAtStartOfJoin(items: seq<string>, q: string)
    requires items != [] && q != "" && ' ' !in q
    ensures OnlyAtStart(Join(items, ' '), q) <==>
            OnlyAtStart(items[0], q) && forall k :: 1 <= k < |items| ==> !Has(items[k], q)
  {
    if |items| > 1 {
      OnlyAtStartAround(items[0], Join(items[1..], ' '), q);
      HasInJoin(items[1..], q);
      assert forall k :: 1 <= k < |items| ==> items[k] == items[1..][k - 1];
    }
  }

  lemma ItemHasNone(line: string, k: nat, q: string)
    requires q != "" && ' ' !in q && OnlyAtStart(line, q) && 1 <= k < |Split(line, ' ')|
    ensures !Has(Split(line, ' ')[k], q)
  {
    OnlyAtStartOfJoin(Split(line, ' '), q);
  }

  // A later item of a tidy line is harmless.
  lemma ItemIsHarmless(line: string, k: nat, item: string)
    requires !Has(line, CRLF) && forall q :: Marker(q) ==> OnlyAtStart(line, q)
    requires 1 <= k < |Split(line, ' ')| && item == Split(line, ' ')[k]
    ensures Harmless(item)
  {
    ItemsOfLineAreClean(line, k);
    forall q | Marker(q)
      ensures !Has(item, q)
    {
      MarkersAreWhole(q);
      ItemHasNone(line, k, q);
    }
  }

  lemma ReadIsHarmless(lines: seq<string>, prefix: string, n: nat)
    requires AllTidy(lines) && n >= 2
    ensures Harmless(ItemOf(lines, prefix, n))
  {
    var i := FirstLine(lines, prefix);
    if i != -1 && n <= |Split(lines[i], ' ')| {
      assert Tidy(lines, VIDEO);
      ItemIsHarmless(lines[i], n - 1, Split(lines[i], ' ')[n - 1]);
    } else {
      EmptyIsClean();
    }
  }

  // An edited line starts as before.
  lemma EditedStart(line: string, n: nat, value: string, q: string)
    requires Marker(q) && n >= 2
    ensures At(EditLine(line, n, value), q, 0) <==> At(line, q, 0)
  {
    var items := Split(line, ' ');
    if n <= |items| {
      StartOfJoin(items, q);
      StartOfJoin(items[n - 1 := value], q);
    }
  }

  lemma EditedIsTidy(line: string, n: nat, value: string, q: string)
    requires Marker(q) && n >= 2 && OnlyAtStart(line, q) && !Has(value, q)
    ensures OnlyAtStart(EditLine(line, n, value), q)
  {
    var items := Split(line, ' ');
    if n <= |items| {
      OnlyAtStartOfJoin(items, q);
      OnlyAtStartOfJoin(items[n - 1 := value], q);
    }
  }

  lemma EditedIsOneLine(line: string, n: nat, value: string)
    requires n >= 2 && !Has(line, CRLF) && !Has(value, CRLF)
    ensures !Has(EditLine(line, n, value), CRLF)
  {
    var items := Split(line, ' ');
    if n <= |items| {
      HasInJoin(items, CRLF);
      HasInJoin(items[n - 1 := value], CRLF);
    }
  }

  lemma EditKeepsTidy(lines: seq<string>, prefix: string, n: nat, value: string)
    requires AllTidy(lines) && Harmless(value) && n >= 2
    ensures AllTidy(Edit(lines, prefix, n, value))
  {
    var i := FirstLine(lines, prefix);
    if i != -1 {
      forall q | Marker(q)
        ensures Tidy(Edit(lines, prefix, n, value), q)
      {
        assert Tidy(lines, q);
        EditedIsTidy(lines[i], n, value, q);
        EditedIsOneLine(lines[i], n, value);
      }
    }
  }

  lemma GetOfTidy(lines: seq<string>, prefix: string, n: nat)
    requires AllTidy(lines) && Marker(prefix) && n >= 1
    ensures Get(Render(lines), prefix, n) == ItemOf(lines, prefix, n)
  {
    assert Tidy(lines, prefix);
    GetOfRender(lines, prefix, n);
  }

  lemma ReplaceOfTidy(lines: seq<string>, prefix: string, n: nat, value: string)
    requires AllTidy(lines) && Marker(prefix) && n >= 2 && Harmless(value)
    ensures Replace(Render(lines), prefix, n, value) == Render(Edit(lines, prefix, n, value))
    ensures AllTidy(Edit(lines, prefix, n, value))
  {
    assert Tidy(lines, prefix);
    ReplaceOfRender(lines, prefix, n, value);
    EditKeepsTidy(lines, prefix, n, value);
  }

  /** On tidy lines the rewriting of the text is the rewriting of the lines. */
  lemma RelayedRender(lines: seq<string>)
    requires AllTidy(lines)
    ensures Relayed(Render(lines)) == Render(RelayedLines(lines))
    ensures AllTidy(RelayedLines(lines))
  {
    var relayip, relayport := ItemOf(lines, CANDIDATE, 5), ItemOf(lines, CANDIDATE, 6);
    GetOfTidy(lines, CANDIDATE, 5);
    GetOfTidy(lines, CANDIDATE, 6);
    ReadIsHarmless(lines, CANDIDATE, 5);
    ReadIsHarmless(lines, CANDIDATE, 6);
    ReplaceOfTidy(lines, CONNECTION, 3, relayip);
    var lines1 := Edit(lines, CONNECTION, 3, relayip);
    ReplaceOfTidy(lines1, VIDEO, 2, relayport);
    ReplaceOfTidy(Edit(lines1, VIDEO, 2, relayport), AUDIO, 2, relayport);
  }

  lemma FirstLineIs(lines: seq<string>, q: string, i: int)
    requires -1 <= i < |lines|
    requires i != -1 ==> At(lines[i], q, 0)
    requires forall k :: 0 <= k < (if i == -1 then |lines| else i) ==> !At(lines[k], q, 0)
    ensures FirstLine(lines, q) == i
  {
  }

  lemma EditAt(lines: seq<string>, prefix: string, n: nat, value: string, k: nat)
    requires n >= 1 && k < |lines|
    ensures |Edit(lines, prefix, n, value)| == |lines|
    ensures Edit(lines, prefix, n, value)[k] == if k == FirstLine(lines, prefix) then EditLine(lines[k], n, value) else lines[k]
  {
  }

  // Every marker is found in the same line as before.
  lemma EditKeepsFirstLine(lines: seq<string>, prefix: string, n: nat, value: string, q: string)
    requires Marker(q) && n >= 2
    ensures |Edit(lines, prefix, n, value)| == |lines|
    ensures FirstLine(Edit(lines, prefix, n, value), q) == FirstLine(lines, q)
  {
    var lines' := Edit(lines, prefix, n, value);
    forall k | 0 <= k < |lines|
      ensures At(lines'[k], q, 0) <==> At(lines[k], q, 0)
    {
      EditAt(lines, prefix, n, value, k);
      EditedStart(lines[k], n, value, q);
    }
    FirstLineIs(lines', q, FirstLine(lines, q));
  }

  /** The line after the rewrite: the item of the three lines it is about is replaced, nothing else. */
  function RelayedLine(lines: seq<string>, k: nat): string
    requires k < |lines|
  {
    if k == FirstLine(lines, CONNECTION) then EditLine(lines[k], 3, ItemOf(lines, CANDIDATE, 5))
    else if k == FirstLine(lines, VIDEO) || k == FirstLine(lines, AUDIO) then EditLine(lines[k], 2, ItemOf(lines, CANDIDATE, 6))
    else lines[k]
  }

  lemma FirstLinesDiffer(lines: seq<string>, p: string, q: string)
    requires Marker(p) && Marker(q) && p != q
    ensures FirstLine(lines, p) == FirstLine(lines, q) ==> FirstLine(lines, p) == -1
  {
    var i := FirstLine(lines, p);
    if i != -1 && At(lines[i], q, 0) {
      MarkersDiffer(lines[i], p, q);
    }
  }

  lemma EditsAt(lines: seq<string>, address: string, port: string, k: nat)
    requires k < |lines|
    ensures var edited := Edit(Edit(Edit(lines, CONNECTION, 3, address), VIDEO, 2, port), AUDIO, 2, port);
            |edited| == |lines| && edited[k] ==
              if k == FirstLine(lines, CONNECTION) then EditLine(lines[k], 3, address)
              else if k == FirstLine(lines, VIDEO) || k == FirstLine(lines, AUDIO) then EditLine(lines[k], 2, port)
              else lines[k]
  {
    var lines1 := Edit(lines, CONNECTION, 3, address);
    var lines2 := Edit(lines1, VIDEO, 2, port);
    EditKeepsFirstLine(lines, CONNECTION, 3, address, VIDEO);
    EditKeepsFirstLine(lines, CONNECTION, 3, address, AUDIO);
    EditKeepsFirstLine(lines1, VIDEO, 2, port, AUDIO);
    EditAt(lines, CONNECTION, 3, address, k);
    EditAt(lines1, VIDEO, 2, port, k);
    EditAt(lines2, AUDIO, 2, port, k);
    FirstLinesDiffer(lines, CONNECTION, VIDEO);
    FirstLinesDiffer(lines, CONNECTION, AUDIO);
    FirstLinesDiffer(lines, VIDEO, AUDIO);
  }

  /** The rewrite, line by line. */
  lemma RelayedAt(lines: seq<string>, k: nat)
    requires k < |lines|
    ensures |RelayedLines(lines)| == |lines| && RelayedLines(lines)[k] == RelayedLine(lines, k)
  {
    EditsAt(lines, ItemOf(lines, CANDIDATE, 5), ItemOf(lines, CANDIDATE, 6), k);
  }

  lemma RelayedKeepsFirstLine(lines: seq<string>, q: string)
    requires Marker(q)
    ensures FirstLine(RelayedLines(lines), q) == FirstLine(lines, q)
  {
    var relayip, relayport := ItemOf(lines, CANDIDATE, 5), ItemOf(lines, CANDIDATE, 6);
    var lines1 := Edit(lines, CONNECTION, 3, relayip);
    var lines2 := Edit(lines1, VIDEO, 2, relayport);
    EditKeepsFirstLine(lines, CONNECTION, 3, relayip, q);
    EditKeepsFirstLine(lines1, VIDEO, 2, relayport, q);
    EditKeepsFirstLine(lines2, AUDIO, 2, relayport, q);
  }

  lemma EditedItems(line: string, n: nat, value: string)
    requires 1 <= n <= |Split(line, ' ')| && ' ' !in value
    ensures Split(EditLine(line, n, value), ' ') == Split(line, ' ')[n - 1 := value]
  {
    SplitOfJoin(Split(line, ' ')[n - 1 := value], ' ');
  }

  lemma EditTwice(line: string, n: nat, value: string)
    requires n >= 1 && ' ' !in value
    ensures EditLine(EditLine(line, n, value), n, value) == EditLine(line, n, value)
  {
    var items := Split(line, ' ');
    if n <= |items| {
      EditedItems(line, n, value);
      assert items[n - 1 := value][n - 1 := value] == items[n - 1 := value];
    }
  }

  /** The candidate line is not touched, so the same address and port are read again. */
  lemma RelayedKeepsCandidate(lines: seq<string>, n: nat)
    requires n >= 1
    ensures ItemOf(RelayedLines(lines), CANDIDATE, n) == ItemOf(lines, CANDIDATE, n)
  {
    RelayedKeepsFirstLine(lines, CANDIDATE);
    var i := FirstLine(lines, CANDIDATE);
    if i != -1 {
      RelayedAt(lines, i);
      FirstLinesDiffer(lines, CANDIDATE, CONNECTION);
      FirstLinesDiffer(lines, CANDIDATE, VIDEO);
      FirstLinesDiffer(lines, CANDIDATE, AUDIO);
    }
  }

  lemma ItemHasNoSpace(lines: seq<string>, prefix: string, n: nat)
    requires n >= 1
    ensures ' ' !in ItemOf(lines, prefix, n)
  {
  }

  /** Rewriting twice is rewriting once. */
  lemma RelayedLinesTwice(lines: seq<string>)
    ensures RelayedLines(RelayedLines(lines)) == RelayedLines(lines)
  {
    var r := RelayedLines(lines);
    if lines != [] {
      RelayedAt(lines, 0);
    }
    forall k | 0 <= k < |lines|
      ensures |RelayedLines(r)| == |lines| == |r| && RelayedLines(r)[k] == r[k]
    {
      RelayedLineTwice(lines, k);
    }
  }

  lemma RelayedLineTwice(lines: seq<string>, k: nat)
    requires k < |lines|
    ensures var r := RelayedLines(lines);
            |RelayedLines(r)| == |lines| == |r| && RelayedLines(r)[k] == r[k]
  {
    var r := RelayedLines(lines);
    RelayedAt(lines, k);
    RelayedAt(r, k);
    RelayedKeepsFirstLine(lines, CONNECTION);
    RelayedKeepsFirstLine(lines, VIDEO);
    RelayedKeepsFirstLine(lines, AUDIO);
    RelayedKeepsCandidate(lines, 5);
    RelayedKeepsCandidate(lines, 6);
    ItemHasNoSpace(lines, CANDIDATE, 5);
    ItemHasNoSpace(lines, CANDIDATE, 6);
    EditTwice(lines[k], 3, ItemOf(lines, CANDIDATE, 5));
    EditTwice(lines[k], 2, ItemOf(lines, CANDIDATE, 6));
  }

  predicate Rewritten(prefix: string) {
    prefix == CONNECTION || prefix == VIDEO || prefix == AUDIO
  }

  /** Which item of a line is rewritten, and which item of the candidate line it becomes. */
  function Target(prefix: string): nat { if prefix == CONNECTION then 3 else 2 }

  function Source(prefix: string): nat { if prefix == CONNECTION then 5 else 6 }

  lemma RewrittenLine(lines: seq<string>, prefix: string)
    requires Rewritten(prefix) && FirstLine(lines, prefix) != -1
    ensures var i := FirstLine(lines, prefix);
            RelayedLine(lines, i) == EditLine(lines[i], Target(prefix), ItemOf(lines, CANDIDATE, Source(prefix)))
  {
    if prefix != CONNECTION {
      FirstLinesDiffer(lines, CONNECTION, prefix);
    }
  }

  lemma RelayedReads(lines: seq<string>, prefix: string)
    requires Rewritten(prefix)
    requires FirstLine(lines, prefix) != -1 && Target(prefix) <= |Split(lines[FirstLine(lines, prefix)], ' ')|
    ensures ItemOf(RelayedLines(lines), prefix, Target(prefix)) == ItemOf(lines, CANDIDATE, Source(prefix))
  {
    var i, value := FirstLine(lines, prefix), ItemOf(lines, CANDIDATE, Source(prefix));
    RelayedKeepsFirstLine(lines, prefix);
    RelayedAt(lines, i);
    RewrittenLine(lines, prefix);
    ItemHasNoSpace(lines, CANDIDATE, Source(prefix));
    EditedItems(lines[i], Target(prefix), value);
  }

  /** After the rewrite the connection line has the address of the first candidate, and the media
      lines have its port. */
  lemma RelayIsFirstCandidate(lines: seq<string>, prefix: string)
    requires AllTidy(lines) && Rewritten(prefix)
    requires FirstLine(lines, prefix) != -1 && Target(prefix) <= |Split(lines[FirstLine(lines, prefix)], ' ')|
    ensures Get(Relayed(Render(lines)), prefix, Target(prefix)) == Get(Render(lines), CANDIDATE, Source(prefix))
  {
    RelayedReads(lines, prefix);
    RelayedRender(lines);
    GetOfTidy(lines, CANDIDATE, Source(prefix));
    GetOfTidy(RelayedLines(lines), prefix, Target(prefix));
  }

  /** The rewrite erases the address or the port exactly when there is no candidate line, or the
      first one has none. */
  lemma RelayErasesExactly(lines: seq<string>, prefix: string)
    requires AllTidy(lines) && Rewritten(prefix)
    requires FirstLine(lines, prefix) != -1 && Target(prefix) <= |Split(lines[FirstLine(lines, prefix)], ' ')|
    ensures Get(Relayed(Render(lines)), prefix, Target(prefix)) == "" <==>
            var i := FirstLine(lines, CANDIDATE);
            i == -1 || |Split(lines[i], ' ')| < Source(prefix) || Split(lines[i], ' ')[Source(prefix) - 1] == ""
  {
    RelayIsFirstCandidate(lines, prefix);
    GetOfTidy(lines, CANDIDATE, Source(prefix));
  }

  // A line in which no marker can start behind its first character.
  predicate Plain(line: string) {
    '\r' !in line && forall i :: 2 <= i < |line| ==> line[i] != '='
  }

  lemma PlainIsTidy(lines: seq<string>)
    requires forall k :: 0 <= k < |lines| ==> Plain(lines[k])
    ensures AllTidy(lines)
  {
    forall q, k | Marker(q) && 0 <= k < |lines|
      ensures !Has(lines[k], CRLF) && OnlyAtStart(lines[k], q)
    {
      PlainLine(lines[k], q);
    }
  }

  lemma PlainLine(line: string, q: string)
    requires Plain(line) && Marker(q)
    ensures !Has(line, CRLF) && OnlyAtStart(line, q)
  {
    forall i
      ensures !At(line, CRLF, i) && (i > 0 ==> !At(line, q, i))
    {
      MatchedChars(line, CRLF, i);
      MatchedChars(line, q, i);
      assert CRLF[0] == '\r' && q[1] == '=';
    }
  }

  /** Such descriptions: with a connection line and a video line, and no candidate line among plain
      lines; both the address and the port are erased. */
  lemma NoCandidateErases(lines: seq<string>, prefix: string)
    requires (forall k :: 0 <= k < |lines| ==> Plain(lines[k]) && !At(lines[k], CANDIDATE, 0)) && Rewritten(prefix)
    requires FirstLine(lines, prefix) != -1 && Target(prefix) <= |Split(lines[FirstLine(lines, prefix)], ' ')|
    ensures Get(Relayed(Render(lines)), prefix, Target(prefix)) == ""
  {
    PlainIsTidy(lines);
    RelayErasesExactly(lines, prefix);
  }

  const MEDIA_LINE: string := "m=video 9 RTP/AVP 96"
  const CONNECTION_LINE: string := "c=IN IP4 0.0.0.0"

  /** A description as the library makes them, before any candidate is known. */
  function LocalDescription(): seq<string> {
    ["v=0", "o=- 1 2 IN IP4 0.0.0.0", "s=-", "t=0 0", MEDIA_LINE, CONNECTION_LINE]
  }

  lemma MediaLineItems()
    ensures Split(MEDIA_LINE, ' ') == ["m=video", "9", "RTP/AVP", "96"]
  {
    var parts := ["m=video", "9", "RTP/AVP", "96"];
    assert parts[1..] == ["9", "RTP/AVP", "96"] && parts[1..][1..] == ["RTP/AVP", "96"] && parts[1..][1..][1..] == ["96"];
    assert Join(parts, ' ') == MEDIA_LINE;
    SplitOfJoin(parts, ' ');
  }

  lemma ConnectionLineItems()
    ensures Split(CONNECTION_LINE, ' ') == ["c=IN", "IP4", "0.0.0.0"]
  {
    var parts := ["c=IN", "IP4", "0.0.0.0"];
    assert parts[1..] == ["IP4", "0.0.0.0"] && parts[1..][1..] == ["0.0.0.0"];
    assert Join(parts, ' ') == CONNECTION_LINE;
    SplitOfJoin(parts, ' ');
  }

  lemma StartsWith(line: string, q: string, c: char)
    requires line != "" && line[0] == c && q != "" && q[0] != c
    ensures !At(line, q, 0)
  {
    MatchedChars(line, q, 0);
  }

  lemma LocalLines()
    ensures var lines := LocalDescription();
            && (forall k :: 0 <= k < |lines| ==> !At(lines[k], CANDIDATE, 0))
            && FirstLine(lines, VIDEO) == 4 && FirstLine(lines, CONNECTION) == 5
  {
    var lines := LocalDescription();
    assert MEDIA_LINE[0..7] == VIDEO && CONNECTION_LINE[0..4] == CONNECTION;
    assert At(lines[4], VIDEO, 0) && At(lines[5], CONNECTION, 0);
    hide At, FirstLine;
    forall k | 0 <= k < |lines|
      ensures !At(lines[k], CANDIDATE, 0) && (k != 4 ==> !At(lines[k], VIDEO, 0)) && (k != 5 ==> !At(lines[k], CONNECTION, 0))
    {
      StartsWith(lines[k], CANDIDATE, lines[k][0]);
      if k != 4 {
        StartsWith(lines[k], VIDEO, lines[k][0]);
      }
      if k != 5 {
        StartsWith(lines[k], CONNECTION, lines[k][0]);
      }
    }
    FirstLineIs(lines, VIDEO, 4);
    FirstLineIs(lines, CONNECTION, 5);
  }

  lemma LocalIsPlain()
    ensures forall k :: 0 <= k < |LocalDescription()| ==> Plain(LocalDescription()[k])
  {
  }

  // A candidate line behind lines that have none changes nothing about the others.
  lemma CandidateBehind(lines: seq<string>, candidate: string, q: string)
    requires Marker(q) && At(candidate, CANDIDATE, 0) && FirstLine(lines, CANDIDATE) == -1
    requires q == CANDIDATE || FirstLine(lines, q) != -1
    ensures FirstLine(lines + [candidate], q) == if q == CANDIDATE then |lines| else FirstLine(lines, q)
  {
    hide At, FirstLine;
    var all := lines + [candidate];
    assert forall k :: 0 <= k < |lines| ==> all[k] == lines[k];
    FirstLineIs(all, q, if q == CANDIDATE then |lines| else FirstLine(lines, q));
  }

  // A description of plain lines with a candidate behind them, by its parts.
  lemma CandidateIsUsedIn(lines: seq<string>, candidate: string, prefix: string)
    requires (forall k :: 0 <= k < |lines| ==> Plain(lines[k])) && Plain(candidate)
    requires At(candidate, CANDIDATE, 0) && FirstLine(lines, CANDIDATE) == -1 && Rewritten(prefix)
    requires |Split(candidate, ' ')| >= 6
    requires FirstLine(lines, prefix) != -1 && Target(prefix) <= |Split(lines[FirstLine(lines, prefix)], ' ')|
    ensures Get(Relayed(Render(lines + [candidate])), prefix, Target(prefix)) == Split(candidate, ' ')[Source(prefix) - 1]
  {
    var all := lines + [candidate];
    CandidateBehind(lines, candidate, prefix);
    CandidateBehind(lines, candidate, CANDIDATE);
    PlainIsTidy(all);
    hide Relayed, Render, Get, Split, At, Plain, AllTidy;
    RelayIsFirstCandidate(all, prefix);
    GetOfTidy(all, CANDIDATE, Source(prefix));
  }

  lemma LocalParts()
    ensures var lines := LocalDescription();
            && (forall k :: 0 <= k < |lines| ==> Plain(lines[k])) && FirstLine(lines, CANDIDATE) == -1
            && FirstLine(lines, VIDEO) == 4 && FirstLine(lines, CONNECTION) == 5
            && |Split(lines[4], ' ')| == 4 && |Split(lines[5], ' ')| == 3
  {
    MediaLineItems();
    ConnectionLineItems();
    hide Split;
    LocalIsPlain();
    hide Plain;
    LocalLines();
    NoCandidateLine(LocalDescription());
  }

  /** With a relay candidate that description gets the candidate's address and port. */
  lemma RelayCandidateIsUsed(candidate: string)
    requires "a=candidate" <= candidate && Plain(candidate) && |Split(candidate, ' ')| >= 6
    ensures var r := Relayed(Render(LocalDescription() + [candidate]));
            Get(r, VIDEO, 2) == Split(candidate, ' ')[5] && Get(r, CONNECTION, 3) == Split(candidate, ' ')[4]
  {
    assert At(candidate, CANDIDATE, 0);
    hide Relayed, Render, Get, Split, FirstLine, At, Plain;
    LocalParts();
    CandidateIsUsedIn(LocalDescription(), candidate, VIDEO);
    CandidateIsUsedIn(LocalDescription(), candidate, CONNECTION);
  }

  lemma NoCandidateLine(lines: seq<string>)
    requires forall k :: 0 <= k < |lines| ==> !At(lines[k], CANDIDATE, 0)
    ensures FirstLine(lines, CANDIDATE) == -1
  {
  }

  /** Written out, line ends and all. */
  lemma ReadsItemOfText()
    ensures Get("c=IN IP4 0.0.0.0\r\n", "c=IN", 3) == "0.0.0.0"
  {
    var lines := [CONNECTION_LINE];
    assert Render(lines[1..]) == "";
    assert Render(lines) == "c=IN IP4 0.0.0.0\r\n";
    assert Plain(CONNECTION_LINE);
    PlainIsTidy(lines);
    ConnectionLineItems();
    assert CONNECTION_LINE[0..4] == CONNECTION;
    FirstLineIs(lines, CONNECTION, 0);
    hide Get, Split, Render;
    GetOfTidy(lines, CONNECTION, 3);
  }

  /** That description loses its address and its port. */
  lemma AddressAndPortErased()
    ensures var r := Relayed(Render(LocalDescription()));
            Get(r, VIDEO, 2) == "" && Get(r, CONNECTION, 3) == ""
  {
    LocalLines();
    LocalIsPlain();
    MediaLineItems();
    ConnectionLineItems();
    hide Relayed, Render, Get, Split, FirstLine, At, Plain;
    NoCandidateErases(LocalDescription(), VIDEO);
    NoCandidateErases(LocalDescription(), CONNECTION);
  }

  /** A second rewrite changes nothing. */
  lemma RelayTwice(lines: seq<string>)
    requires AllTidy(lines)
    ensures Relayed(Relayed(Render(lines))) == Relayed(Render(lines))
  {
    RelayedRender(lines);
    RelayedRender(RelayedLines(lines));
    RelayedLinesTwice(lines);
  }

  // ---------- the audio section ----------

  /** A remote description with video, without the first audio section. */
  function WithoutAudio(sdp: string): string {
    var audioStart, videoStart := Find(sdp, AUDIO), Find(sdp, VIDEO);
    if videoStart == -1 || audioStart == -1 then sdp
    else if audioStart < videoStart then sdp[..audioStart] + sdp[videoStart..]
    else sdp[..audioStart]
  }

  /** Video is preferred in an offer, and in an answer. */
  method PreferVideo(sdp: string) returns (sdp': string)
    ensures sdp' == WithoutAudio(sdp)
  {
    sdp' := sdp;
    if Find(sdp', VIDEO) != -1 {
      var audioStart := Find(sdp', AUDIO);
      var videoStart := Find(sdp', VIDEO);
      if audioStart != -1 {
        if audioStart < videoStart {
          sdp' := sdp'[..audioStart] + sdp'[videoStart..];
        } else {
          sdp' := sdp'[..audioStart];
        }
      }
    }
  }

  predicate Media(q: string) { q == VIDEO || q == AUDIO }

  // An m= line does not begin inside the start of another one.
  lemma NoOverlap(s: string, q: string, i: int, j: nat)
    requires Media(q) && At(s, q, i) && j < |s| && s[j] == 'm'
    ensures i + |q| <= j || j <= i
  {
    MatchedChars(s, q, i);
    assert forall k :: 1 <= k < |q| ==> q[k] != 'm';
  }

  lemma MediaStarts(s: string, q: string, j: int)
    requires Media(q) && At(s, q, j)
    ensures s[j] == 'm'
  {
    MatchedChars(s, q, j);
  }

  // Different m= lines start at different places, one behind the other.
  lemma Apart(s: string, p: string, q: string, i: int, j: int)
    requires Media(p) && Media(q) && p != q && At(s, p, i) && At(s, q, j) && i <= j
    ensures i + |p| <= j
  {
    MediaStarts(s, q, j);
    NoOverlap(s, p, i, j);
    MatchedChars(s, p, i);
    MatchedChars(s, q, j);
    assert s[i + 2] == p[2] && s[j + 2] == q[2];
  }

  // With two pieces joined at an m= line, nothing is found across the joint.
  lemma FoundInOnePiece(x: string, y: string, q: string, i: int)
    requires Media(q) && y != "" && y[0] == 'm'
    ensures At(x + y, q, i) <==> At(x, q, i) || (i >= |x| && At(y, q, i - |x|))
  {
    var s := x + y;
    assert s[..|x|] == x && s[|x|..] == y && s[|x|] == 'm';
    if i + |q| <= |x| {
      AtInBoth(s, x, q, i, |x|);
    } else if i >= |x| {
      AtInSuffix(s, |x|, q, i - |x|);
    } else if At(s, q, i) {
      NoOverlap(s, q, i, |x|);
    }
  }

  lemma NoneBefore(s: string, q: string, e: nat, i: int)
    requires e <= |s| && e <= Find(s, q) && q != ""
    ensures !At(s[..e], q, i)
  {
    if At(s[..e], q, i) {
      AtInBoth(s, s[..e], q, i, e);
      assert false;
    }
  }

  lemma AudioFirstAt(sdp: string, q: string, a: nat, v: nat, i: int)
    requires Media(q) && a <= v < |sdp| && sdp[v] == 'm' && a <= Find(sdp, q)
    ensures At(sdp[..a] + sdp[v..], q, i) <==> i >= a && At(sdp[v..], q, i - a)
  {
    FoundInOnePiece(sdp[..a], sdp[v..], q, i);
    NoneBefore(sdp, q, a, i);
  }

  // What is found in s is found in rest, which starts a characters later.
  ghost predicate FoundOnlyIn(s: string, rest: string, a: nat, q: string) {
    forall i :: At(s, q, i) <==> i >= a && At(rest, q, i - a)
  }

  lemma JoinedFrom(sdp: string, q: string, a: nat, v: nat)
    requires Media(q) && a <= v < |sdp| && sdp[v] == 'm' && a <= Find(sdp, q)
    ensures FoundOnlyIn(sdp[..a] + sdp[v..], sdp[v..], a, q)
  {
    forall i
      ensures At(sdp[..a] + sdp[v..], q, i) <==> i >= a && At(sdp[v..], q, i - a)
    {
      AudioFirstAt(sdp, q, a, v, i);
    }
  }

  // Audio in front: what is left is what was before it, and everything from the video on.
  lemma AudioFirst(sdp: string, q: string)
    requires Media(q) && -1 < Find(sdp, AUDIO) < Find(sdp, VIDEO)
    ensures var a, rest := Find(sdp, AUDIO), sdp[Find(sdp, VIDEO)..];
            && WithoutAudio(sdp) == sdp[..a] + rest
            && FoundOnlyIn(WithoutAudio(sdp), rest, a, q)
  {
    MediaStarts(sdp, VIDEO, Find(sdp, VIDEO));
    JoinedFrom(sdp, q, Find(sdp, AUDIO), Find(sdp, VIDEO));
  }

  // Video in front: everything from the audio on is gone.
  lemma VideoFirst(sdp: string)
    requires -1 < Find(sdp, VIDEO) <= Find(sdp, AUDIO)
    ensures WithoutAudio(sdp) == sdp[..Find(sdp, AUDIO)] && !Has(WithoutAudio(sdp), AUDIO)
    ensures Find(WithoutAudio(sdp), VIDEO) == Find(sdp, VIDEO)
  {
    var a, v := Find(sdp, AUDIO), Find(sdp, VIDEO);
    Apart(sdp, VIDEO, AUDIO, v, a);
    forall i
      ensures !At(sdp[..a], AUDIO, i)
    {
      NoneBefore(sdp, AUDIO, a, i);
    }
    SameStart(sdp, sdp[..a], VIDEO, a);
  }

  /** A description without video stays as it is, audio included. */
  lemma NothingWithoutVideo(sdp: string)
    requires !Has(sdp, VIDEO)
    ensures WithoutAudio(sdp) == sdp
  {
  }

  /** Such as the answer of an audio call. */
  lemma AudioCallKeepsAudio()
    ensures var sdp := "v=0\r\nm=audio 9 RTP/AVP 0\r\n"; WithoutAudio(sdp) == sdp
  {
    var sdp := "v=0\r\nm=audio 9 RTP/AVP 0\r\n";
    forall i
      ensures !At(sdp, VIDEO, i)
    {
      MatchedChars(sdp, VIDEO, i);
      assert VIDEO[2] == 'v';
      assert forall j :: 0 < j < |sdp| ==> sdp[j] != 'v';
    }
    NothingWithoutVideo(sdp);
  }

  /** Audio is left exactly when it comes before the video and again after it. */
  lemma AudioLeftExactly(sdp: string)
    requires Has(sdp, VIDEO)
    ensures Has(WithoutAudio(sdp), AUDIO) <==>
            -1 < Find(sdp, AUDIO) < Find(sdp, VIDEO) && Has(sdp[Find(sdp, VIDEO)..], AUDIO)
  {
    var a, v := Find(sdp, AUDIO), Find(sdp, VIDEO);
    if -1 < a < v {
      AudioFirst(sdp, AUDIO);
      if i :| At(sdp[v..], AUDIO, i) {
        assert At(WithoutAudio(sdp), AUDIO, i + a);
      }
    } else if a != -1 {
      VideoFirst(sdp);
    }
  }

  /** Such descriptions: an audio section, a video section, and audio again. */
  lemma SecondAudioIsLeft(first: string, video: string, second: string)
    requires At(first, AUDIO, 0) && At(video, VIDEO, 0) && At(second, AUDIO, 0) && !Has(first, VIDEO)
    ensures Has(WithoutAudio(first + video + second), AUDIO)
  {
    var rest := video + second;
    var sdp := first + rest;
    assert first + video + second == sdp && sdp[..|first|] == first && sdp[|first|..] == rest && rest[..|video|] == video;
    AtInBoth(sdp, first, AUDIO, 0, |first|);
    FindIs(sdp, AUDIO, 0);
    AtInBoth(rest, video, VIDEO, 0, |video|);
    MediaStarts(rest, VIDEO, 0);
    VideoBehind(first, rest);
    assert rest[|video|..] == second;
    AtInSuffix(rest, |video|, AUDIO, 0);
    AudioLeftExactly(sdp);
  }

  lemma VideoBehind(first: string, rest: string)
    requires !Has(first, VIDEO) && At(rest, VIDEO, 0) && rest[0] == 'm'
    ensures Find(first + rest, VIDEO) == |first|
  {
    forall i | 0 <= i <= |first|
      ensures At(first + rest, VIDEO, i) <==> i == |first|
    {
      FoundInOnePiece(first, rest, VIDEO, i);
    }
    FindIs(first + rest, VIDEO, |first|);
  }

  /** One of them. */
  lemma AudioVideoAudio()
    ensures Has(WithoutAudio("m=audio 9 RTP/AVP 0\r\n" + "m=video 9 RTP/AVP 96\r\n" + "m=audio 9 RTP/AVP 8\r\n"), AUDIO)
  {
    var first, video, second := "m=audio 9 RTP/AVP 0\r\n", "m=video 9 RTP/AVP 96\r\n", "m=audio 9 RTP/AVP 8\r\n";
    assert first[0..7] == AUDIO && video[0..7] == VIDEO && second[0..7] == AUDIO;
    forall i
      ensures !At(first, VIDEO, i)
    {
      MatchedChars(first, VIDEO, i);
      assert VIDEO[2] == 'v' && 'v' !in first;
    }
    SecondAudioIsLeft(first, video, second);
  }

  /** The video stays, first where it was first, with all that followed it up to an audio section. */
  lemma VideoStays(sdp: string)
    requires Has(sdp, VIDEO)
    ensures var r, a, v := WithoutAudio(sdp), Find(sdp, AUDIO), Find(sdp, VIDEO);
            if -1 < a < v then Find(r, VIDEO) == a && r[a..] == sdp[v..]
            else Find(r, VIDEO) == v && r == if a == -1 then sdp else sdp[..a]
  {
    var r, a, v := WithoutAudio(sdp), Find(sdp, AUDIO), Find(sdp, VIDEO);
    if -1 < a < v {
      AudioFirst(sdp, VIDEO);
      AtInSuffix(sdp, v, VIDEO, 0);
      FindIs(r, VIDEO, a);
    } else if a != -1 {
      VideoFirst(sdp);
    }
  }

  /** A second removal always takes what the first left. */
  lemma SecondRemovalSuffices(sdp: string)
    requires Has(sdp, VIDEO)
    ensures !Has(WithoutAudio(WithoutAudio(sdp)), AUDIO)
  {
    var r := WithoutAudio(sdp);
    var a, v := Find(sdp, AUDIO), Find(sdp, VIDEO);
    VideoStays(sdp);
    AudioLeftExactly(sdp);
    if Has(r, AUDIO) {
      AudioFirst(sdp, AUDIO);
      assert Find(r, VIDEO) <= Find(r, AUDIO);
      VideoFirst(r);
    }
  }
}
