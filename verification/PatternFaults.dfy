/** Which texts parseRangePattern refuses, and how. */
module PatternFaults {
  import opened Wrappers
  import opened Text
  import opened Decimal
  import opened RangePattern

  /* ---------- the first faulty part decides ---------- */

  lemma {:induction false} PartsFault(parts: seq<string>, i: nat, e: PatternError)
    requires i < |parts| && ParsePart(parts[i]) == Err(e)
    requires forall k :: 0 <= k < i ==> ParsePart(parts[k]).Ok?
    ensures ParseParts(parts) == Err(e)
  {
    hide ParsePart, Expand;
    if i > 0 {
      assert ParsePart(parts[0]).Ok?;
      assert forall k :: 0 <= k < i - 1 ==> parts[1..][k] == parts[k + 1];
      PartsFault(parts[1..], i - 1, e);
    }
  }

  function Expansions(parts: seq<string>): seq<string>
    requires forall k :: 0 <= k < |parts| ==> ParsePart(parts[k]).Ok?
  {
    if parts == [] then [] else Expand(ParsePart(parts[0]).value) + Expansions(parts[1..])
  }

  lemma {:induction false} PartsSound(parts: seq<string>)
    requires forall k :: 0 <= k < |parts| ==> ParsePart(parts[k]).Ok?
    ensures ParseParts(parts) == Ok(Expansions(parts))
  {
    hide ParsePart, Expand;
    if parts != [] {
      PartsSound(parts[1..]);
    }
  }

  /** A pattern of sound parts gives their expansions in order; otherwise the first faulty part between
      the commas decides. */
  lemma FirstFaultDecides(parts: seq<string>, i: nat)
    requires parts != [] && forall k :: 0 <= k < |parts| ==> ',' !in parts[k]
    requires i <= |parts| && forall k :: 0 <= k < i ==> ParsePart(parts[k]).Ok?
    ensures i == |parts| ==> ParsePattern(Join(parts, ',')) == Ok(Expansions(parts))
    ensures i < |parts| && ParsePart(parts[i]).Err? ==> ParsePattern(Join(parts, ',')) == Err(ParsePart(parts[i]).error)
  {
    SplitOfJoin(parts, ',');
    if i == |parts| {
      PartsSound(parts);
    } else if ParsePart(parts[i]).Err? {
      PartsFault(parts, i, ParsePart(parts[i]).error);
    }
  }

  lemma OnePart(text: string)
    requires ',' !in text
    ensures ParsePattern(text) == match ParsePart(text) case Err(e) => Err(e) case Ok(p) => Ok(Expand(p))
  {
    var parts := [text];
    hide ParsePart, Expand;
    FirstFaultDecides(parts, if ParsePart(text).Ok? then 1 else 0);
    assert parts[1..] == [];
    if ParsePart(text).Ok? {
      var items := Expand(ParsePart(text).value);
      assert Expansions(parts) == items + Expansions(parts[1..]) == items;
    }
  }

  /* ---------- without brackets and braces ---------- */

  predicate Bare(text: string) {
    ',' !in text && '{' !in text && '}' !in text && '[' !in text && ']' !in text
  }

  lemma PlainRepeat()
    ensures Atoi("1") == Ok(1)
  {
    assert ToDecimal(1) == "1";
    AtoiOfDecimal(1);
  }

  // A text without brackets and braces is a range.
  lemma BareIsRange(text: string)
    requires Bare(text)
    ensures ParsePart(text) ==
      match CutRange(text)
      case Err(e) => Err(e)
      case Ok((start, end)) =>
        match ReadRange(start, end)
        case Err(e) => Err(e)
        case Ok((nstart, nend)) => Ok(Part("", start, end, "", false, 1, nstart, nend))
  {
    PlainRepeat();
    if text != "" {
      assert text[|text| - 1] in text;
    }
    assert CutRepeat(text) == Ok(("1", text));
    assert IndexOf(text, '[') == -1 && IndexOf(text, ']') == -1;
    assert CutBrackets(text) == Ok(("", text, ""));
  }

  /** Dash-separated pieces: one is taken if it is not empty, three or more are too many. */
  lemma PiecesOfRange(pieces: seq<string>)
    requires pieces != [] && forall k :: 0 <= k < |pieces| ==> Bare(pieces[k]) && '-' !in pieces[k]
    ensures |pieces| == 1 ==> (ParsePattern(pieces[0]).Ok? <==> pieces[0] != "")
    ensures pieces == [""] ==> ParsePattern("") == Err(EmptyRange)
    ensures |pieces| > 2 ==> ParsePattern(Join(pieces, '-')) == Err(TooManyDashes)
  {
    var text := Join(pieces, '-');
    BareJoin(pieces);
    SplitOfJoin(pieces, '-');
    BareIsRange(text);
    OnePart(text);
    if |pieces| > 2 {
      assert text == pieces[0] + ['-'] + Join(pieces[1..], '-');
    }
  }

  lemma {:induction false} BareJoin(pieces: seq<string>)
    requires pieces != [] && forall k :: 0 <= k < |pieces| ==> Bare(pieces[k])
    ensures Bare(Join(pieces, '-'))
  {
    if |pieces| > 1 {
      BareJoin(pieces[1..]);
    }
  }

  /** Two pieces, whatever they are: refused with the first of these faults that there is, otherwise a
      range. */
  lemma TwoPieces(start: string, end: string)
    requires Bare(start) && Bare(end) && '-' !in start && '-' !in end
    ensures var r := ParsePattern(start + "-" + end);
            if start == "" || end == "" || |start| != |end| then r == Err(EmptyOrUnequal)
            else if start == end then r == Ok([start])
            else if Atoi(start).Err? then r == Err(StartNotInteger)
            else if Atoi(end).Err? then r == Err(EndNotInteger)
            else if Atoi(end).value < Atoi(start).value then r == Err(EndLessThanStart)
            else r == Ok(Expand(Part("", start, end, "", false, 1, Atoi(start).value, Atoi(end).value)))
  {
    var pieces := [start, end];
    assert pieces[1..] == [end];
    var text := start + "-" + end;
    assert Join(pieces, '-') == text;
    BareJoin(pieces);
    SplitOfJoin(pieces, '-');
    BareIsRange(text);
    OnePart(text);
    assert CutRange(text) == if start == "" || end == "" || |start| != |end| then Err(EmptyOrUnequal) else Ok((start, end));
    if start != "" && start == end {
      OneItem(start);
    }
  }

  lemma OneItem(start: string)
    ensures Expand(Part("", start, start, "", false, 1, 0, 0)) == [start]
  {
    var p := Part("", start, start, "", false, 1, 0, 0);
    SingleBlock(p);
    assert "" + start + "" == start;
    assert Repeat(Block(p), 1) == Repeat(Block(p), 0) + Block(p) == Block(p);
  }

  /** Two digit strings are a range exactly when they are equally long and either the same or in
      order and not too large. */
  lemma DigitRangeExactly(start: string, end: string)
    requires start != "" && end != "" && AllDigits(start) && AllDigits(end)
    ensures ParsePattern(start + "-" + end).Ok?
       <==> |start| == |end| && (start == end || Value(start) <= Value(end) <= MAX_INT)
  {
    DigitsAreBare(start);
    DigitsAreBare(end);
    TwoPieces(start, end);
    AtoiOfDigits(start);
    AtoiOfDigits(end);
    if |start| == |end| && start != end && Value(start) == Value(end) {
      SameDigits(start, end);
    }
  }

  lemma DigitsAreBare(s: string)
    requires AllDigits(s)
    ensures Bare(s) && '-' !in s
  {
  }

  /** Digits are read as their value, up to the largest integer; with a sign likewise. */
  lemma AtoiOfDigits(s: string)
    requires s != "" && AllDigits(s)
    ensures var n: int := Value(s);
            && Atoi(s) == Atoi("+" + s) == (if n <= MAX_INT then Ok(n) else Err(Range))
            && Atoi("-" + s) == (if n <= MAX_INT + 1 then Ok(-n) else Err(Range))
  {
    assert ("+" + s)[1..] == s && ("-" + s)[1..] == s;
  }

  /** Anything else is no integer. */
  lemma AtoiOfOthers(s: string)
    requires s == "" || s == "+" || s == "-" || exists i :: 0 <= i < |s| && !IsDigit(s[i]) && (i > 0 || (s[0] != '+' && s[0] != '-'))
    ensures Atoi(s) == Err(Syntax)
  {
    if i :| 0 <= i < |s| && !IsDigit(s[i]) && (i > 0 || (s[0] != '+' && s[0] != '-')) {
      if s[0] == '+' || s[0] == '-' {
        assert s[1..][i - 1] == s[i];
      }
    }
  }

  /* ---------- braces and brackets ---------- */

  /** A closing brace without an opening one. */
  lemma BraceNotOpened(text: string)
    requires ',' !in text && '{' !in text
    ensures ParsePattern(text + "}") == Err(UnmatchedBraces)
  {
    var part := text + "}";
    assert part[|part| - 1] == '}' && '{' !in part;
    OnePart(part);
  }

  // The text inside the braces of a part, and the part in front.
  lemma RepeatIsCut(core: string, repeat: string)
    requires '{' !in core
    ensures CutRepeat(core + "{" + repeat + "}") == Ok((repeat, core))
  {
    var part := core + "{" + repeat + "}";
    assert part[..|core|] == core && part[|core| + 1..|part| - 1] == repeat;
    IndexIs(part, '{', |core|);
  }

  /** A repeat count that is no integer. */
  lemma RepeatMustBeInteger(core: string, repeat: string)
    requires ',' !in core && '{' !in core && ',' !in repeat
    requires Atoi(if repeat != "" && repeat[0] == '@' then repeat[1..] else repeat).Err?
    ensures ParsePattern(core + "{" + repeat + "}") == Err(RepeatNotInteger)
  {
    RepeatIsCut(core, repeat);
    OnePart(core + "{" + repeat + "}");
  }

  // A text that does not end in a brace is not repeated.
  lemma NotRepeated(text: string)
    requires ',' !in text && (text == "" || text[|text| - 1] != '}')
    requires CutBrackets(text).Err?
    ensures ParsePattern(text) == Err(CutBrackets(text).error)
  {
    PlainRepeat();
    OnePart(text);
  }

  /** A closing bracket before any opening one, or without one. */
  lemma BracketNotOpened(a: string, b: string)
    requires ',' !in a && ',' !in b && (b == "" || b[|b| - 1] != '}')
    requires '[' !in a && ']' !in a
    ensures ParsePattern(a + "]" + b) == Err(UnmatchedBrackets)
  {
    var text := a + "]" + b;
    assert text[..|a|] == a && text[|a|] == ']';
    IndexIs(text, ']', |a|);
    assert forall k :: 0 <= k < |a| ==> text[k] == a[k] && text[k] in a;
    NotRepeated(text);
  }

  /** An opening bracket that is never closed. */
  lemma BracketNotClosed(a: string, b: string)
    requires ',' !in a && ',' !in b && (b == "" || b[|b| - 1] != '}')
    requires ']' !in a && ']' !in b
    ensures ParsePattern(a + "[" + b) == Err(UnmatchedBrackets)
  {
    var text := a + "[" + b;
    assert text[|a|] == '[';
    assert ']' !in text;
    NotRepeated(text);
  }

  lemma InBrackets(prefix: string, range: string, suffix: string)
    requires '[' !in prefix && ']' !in prefix && ']' !in range
    ensures CutBrackets(prefix + "[" + range + "]" + suffix) == Ok((prefix, range, suffix))
  {
    var core := prefix + "[" + range + "]" + suffix;
    var open, close := |prefix|, |prefix| + 1 + |range|;
    assert core[..open] == prefix;
    IndexIs(core, '[', open);
    assert core[..close] == prefix + "[" + range;
    IndexIs(core, ']', close);
    assert core[open + 1..close] == range && core[close + 1..] == suffix;
  }

  /** A range between brackets that is empty, or has brackets or braces in it. */
  lemma RangeInBracketsFaulty(prefix: string, range: string, suffix: string)
    requires ',' !in prefix && ',' !in range && ',' !in suffix && (suffix == "" || suffix[|suffix| - 1] != '}')
    requires '[' !in prefix && ']' !in prefix && ']' !in range
    ensures range == "" ==> ParsePattern(prefix + "[" + range + "]" + suffix) == Err(EmptyRange)
    ensures '[' in range || '{' in range || '}' in range ==>
              ParsePattern(prefix + "[" + range + "]" + suffix) == Err(RedundantBrackets)
  {
    var text := prefix + "[" + range + "]" + suffix;
    InBrackets(prefix, range, suffix);
    PlainRepeat();
    OnePart(text);
  }

  /** A brace outside brackets that does not close the part. */
  lemma BraceInside(text: string)
    requires ',' !in text && '[' !in text && ']' !in text && text != "" && text[|text| - 1] != '}'
    requires '{' in text || '}' in text
    ensures ParsePattern(text) == Err(RedundantBrackets)
  {
    assert IndexOf(text, '[') == -1 && IndexOf(text, ']') == -1;
    PlainRepeat();
    OnePart(text);
  }

  /** "8-12" is refused. */
  lemma UnequalLengthRefused()
    ensures ParsePattern("8-12") == Err(EmptyOrUnequal)
  {
    assert "8" + "-" + "12" == "8-12";
    TwoPieces("8", "12");
  }
}
