/** What a range pattern means: the closed form of its expansion, and the round trip from a written
    pattern to the accounts it stands for. */
module PatternLaws {
  import opened Wrappers
  import opened Text
  import opened Decimal
  import opened RangePattern
  import opened PatternFaults

  /* ---------- the expansion, item by item ---------- */

  function Times(n: int): nat {
    if n < 0 then 0 else n
  }

  lemma OneMoreTime(n: int, c: nat)
    requires n > 0
    ensures n * c == (n - 1) * c + c
  {
  }

  lemma AtLeastOnce(n: int, m: nat)
    requires n > 0
    ensures n * m >= m
  {
    OneMoreTime(n, m);
    assert (n - 1) * m >= 0;
  }

  lemma QuotientAndRemainder(q: nat, i: nat, m: nat)
    requires i < m
    ensures (q * m + i) / m == q && (q * m + i) % m == i
  {
    var a := q * m + i;
    var d := a / m;
    assert a == d * m + a % m;
    assert (q - d) * m == a % m - i && (d - q) * m == i - a % m;
    if q > d {
      AtLeastOnce(q - d, m);
    } else if d > q {
      AtLeastOnce(d - q, m);
    }
  }

  lemma {:induction false} RepeatIs(block: seq<string>, n: int, k: nat)
    ensures |Repeat(block, n)| == Times(n) * |block|
    ensures k < |Repeat(block, n)| ==> 0 <= k % |block| < |block| && Repeat(block, n)[k] == block[k % |block|]
    decreases Times(n)
  {
    if n > 0 {
      RepeatIs(block, n - 1, k);
      var before := (n - 1) * |block|;
      assert n * |block| == before + |block|;
      if before <= k < before + |block| {
        QuotientAndRemainder(n - 1, k - before, |block|);
      }
    }
  }

  lemma {:induction false} RepeatEachIs(block: seq<string>, n: int, k: nat)
    ensures |RepeatEach(block, n)| == Times(n) * |block|
    ensures k < |RepeatEach(block, n)| ==> n > 0 && 0 <= k / n < |block| && RepeatEach(block, n)[k] == block[k / n]
  {
    if block != [] {
      var m := |block| - 1;
      RepeatEachIs(block[..m], n, k);
      assert Times(n) * |block| == Times(n) * m + Times(n);
      if n > 0 && n * m <= k < n * m + n {
        QuotientAndRemainder(m, k - n * m, n);
      }
    }
  }

  /** The number that item k of an expansion shows: the numbers in turn, or each as often as repeated. */
  function Shown(special: bool, nrepeat: int, size: int, k: nat): int {
    if special then (if nrepeat > 0 then k / nrepeat else 0) else if size > 0 then k % size else 0
  }

  lemma ExpandedItem(p: Part, k: nat)
    requires k < |Expand(p)|
    ensures var j := Shown(p.special, p.nrepeat, Size(p), k);
            0 <= j < Size(p) && Expand(p)[k] == Item(p, j)
  {
    var block := Block(p);
    if p.special {
      RepeatEachIs(block, p.nrepeat, k);
      if p.nrepeat > 0 {
        BlockAt(p, k / p.nrepeat);
      }
    } else {
      RepeatIs(block, p.nrepeat, k);
      BlockAt(p, k % |block|);
    }
  }

  lemma ExpandedLength(p: Part)
    ensures |Expand(p)| == Times(p.nrepeat) * |Block(p)|
  {
    RepeatIs(Block(p), p.nrepeat, 0);
    RepeatEachIs(Block(p), p.nrepeat, 0);
  }

  lemma {:induction false} CountInRepeat(block: seq<string>, n: int, x: string)
    ensures multiset(Repeat(block, n))[x] == Times(n) * multiset(block)[x]
    decreases Times(n)
  {
    if n > 0 {
      CountInRepeat(block, n - 1, x);
      OneMoreTime(n, multiset(block)[x]);
      assert multiset(Repeat(block, n))[x] == multiset(Repeat(block, n - 1))[x] + multiset(block)[x];
    }
  }

  lemma {:induction false} CountInCopies(item: string, n: int, x: string)
    ensures multiset(Copies(item, n))[x] == if x == item then Times(n) else 0
    decreases Times(n)
  {
    if n > 0 {
      CountInCopies(item, n - 1, x);
      assert Copies(item, n) == Copies(item, n - 1) + [item];
    }
  }

  lemma {:induction false} CountInRepeatEach(block: seq<string>, n: int, x: string)
    ensures multiset(RepeatEach(block, n))[x] == Times(n) * multiset(block)[x]
  {
    if block != [] {
      var m := |block| - 1;
      CountInRepeatEach(block[..m], n, x);
      CountInCopies(block[m], n, x);
      CountOfLast(block, x);
      Distribute(Times(n), multiset(block[..m])[x], if x == block[m] then 1 else 0);
      CountOfConcat(RepeatEach(block[..m], n), Copies(block[m], n), x);
    }
  }

  lemma CountOfConcat(a: seq<string>, b: seq<string>, x: string)
    ensures multiset(a + b)[x] == multiset(a)[x] + multiset(b)[x]
  {
  }

  lemma CountOfLast(block: seq<string>, x: string)
    requires block != []
    ensures var m := |block| - 1;
            multiset(block)[x] == multiset(block[..m])[x] + if x == block[m] then 1 else 0
  {
    assert block == block[..|block| - 1] + [block[|block| - 1]];
  }

  lemma Distribute(n: nat, a: nat, b: nat)
    requires b <= 1
    ensures n * (a + b) == n * a + if b == 1 then n else 0
  {
  }

  lemma SameCounts(block: seq<string>, n: int)
    ensures multiset(Repeat(block, n)) == multiset(RepeatEach(block, n))
  {
    forall x
      ensures multiset(Repeat(block, n))[x] == multiset(RepeatEach(block, n))[x]
    {
      CountInRepeat(block, n, x);
      CountInRepeatEach(block, n, x);
    }
  }

  lemma BlockIgnoresMode(p: Part, special: bool)
    ensures Block(p.(special := special)) == Block(p)
  {
    var q := p.(special := special);
    assert |Block(q)| == |Block(p)|;
    forall j | 0 <= j < |Block(p)|
      ensures Block(q)[j] == Block(p)[j]
    {
      BlockAt(p, j);
      BlockAt(q, j);
      assert Number(q, j) == Number(p, j);
    }
  }

  /** The two repetition modes give the same accounts in a different order. */
  lemma ModesArePermutations(p: Part)
    ensures multiset(Expand(p.(special := false))) == multiset(Expand(p.(special := true)))
  {
    BlockIgnoresMode(p, false);
    BlockIgnoresMode(p, true);
    SameCounts(Block(p), p.nrepeat);
  }

  /** The length law holds exactly when the size of the range does not wrap around. */
  lemma LengthExactly(p: Part)
    requires p.start != p.end && 0 <= p.nstart <= p.nend <= MAX_INT && p.nrepeat > 0
    ensures |Expand(p)| == p.nrepeat * (p.nend - p.nstart + 1) <==> p.nend - p.nstart < MAX_INT
    ensures p.nend - p.nstart == MAX_INT ==> Expand(p) == []
  {
    ExpandedLength(p);
    var full := p.nend - p.nstart + 1;
    SizeWraps(p);
    AtLeastOnce(p.nrepeat, full);
    if p.nend - p.nstart == MAX_INT {
      assert |Block(p)| == 0;
      assert |Expand(p)| == p.nrepeat * 0 == 0;
    } else {
      assert |Block(p)| == full;
    }
  }

  lemma SizeWraps(p: Part)
    requires p.start != p.end && 0 <= p.nstart <= p.nend <= MAX_INT
    ensures Size(p) == if p.nend - p.nstart < MAX_INT then p.nend - p.nstart + 1 else -MAX_INT - 1
  {
  }

  /** A range written in digits only expands to numbers of that many digits, with the values
      nstart..nend. */
  lemma DigitItems(p: Part, j: int)
    requires AllDigits(p.start) && AllDigits(p.end) && |p.start| == |p.end| > 0 && p.start != p.end
    requires p.nstart == Value(p.start) && p.nend == Value(p.end) && 0 <= j <= p.nend - p.nstart
    ensures var digits := Number(p, j);
            AllDigits(digits) && |digits| == |p.start| && Value(digits) == p.nstart + j
    ensures Item(p, j) == p.prefix + Number(p, j) + p.suffix
  {
    ValueBelow(p.end);
    PaddedIsExact(p.nstart + j, |p.start|);
  }

  /* ---------- from a written pattern to its accounts ---------- */

  /** A part as the pattern definition writes it (profile/profile.go:179-184): one or start-end,
      brackets with a prefix and a suffix or none, {repeat}, {@repeat} or neither. */
  datatype WrittenPart = WrittenPart(prefix: string, start: string, end: Option<string>, suffix: string,
                                     brackets: bool, repeat: Option<(bool, nat)>)

  function Range(w: WrittenPart): string {
    if w.end.None? then w.start else w.start + "-" + w.end.value
  }

  function Core(w: WrittenPart): string {
    if w.brackets then w.prefix + "[" + Range(w) + "]" + w.suffix else Range(w)
  }

  function RepeatText(repeat: (bool, nat)): string {
    (if repeat.0 then "@" else "") + ToDecimal(repeat.1)
  }

  function Print(w: WrittenPart): string {
    Core(w) + if w.repeat.None? then "" else "{" + RepeatText(w.repeat.value) + "}"
  }

  predicate Without(s: string, chars: string) {
    forall i :: 0 <= i < |chars| ==> chars[i] !in s
  }

  predicate Admissible(w: WrittenPart) {
    && Without(w.prefix, ",{[]") && Without(w.suffix, ",{")
    && (!w.brackets ==> w.prefix == "" && w.suffix == "")
    && (w.repeat.None? && w.suffix != "" ==> w.suffix[|w.suffix| - 1] != '}')
    && (w.repeat.Some? ==> w.repeat.value.1 <= MAX_INT)
    && w.start != "" && Without(w.start, ",{}[]-")
    && (w.end.Some? ==>
          AllDigits(w.start) && AllDigits(w.end.value) && |w.start| == |w.end.value|
          && Value(w.start) <= Value(w.end.value) <= MAX_INT)
  }

  /** The range has one number more than a 64-bit integer can count. */
  predicate Wraps(w: WrittenPart)
    requires Admissible(w)
  {
    w.end.Some? && Value(w.end.value) - Value(w.start) == MAX_INT
  }

  function Last(w: WrittenPart): string {
    if w.end.None? then w.start else w.end.value
  }

  function Mode(w: WrittenPart): bool {
    w.repeat.Some? && w.repeat.value.0
  }

  function Count(w: WrittenPart): nat {
    if w.repeat.None? then 1 else w.repeat.value.1
  }

  function RangeSize(w: WrittenPart): (n: nat)
    requires Admissible(w)
    ensures n > 0
  {
    if w.end.None? then 1 else Value(w.end.value) - Value(w.start) + 1
  }

  /** The account with number j of the range. */
  function Account(w: WrittenPart, j: int): string
    requires Admissible(w)
  {
    w.prefix + (if w.end.None? || j < 0 then w.start else Padded(Value(w.start) + j, |w.start|)) + w.suffix
  }

  /** The accounts a part stands for, in closed form. */
  function Accounts(w: WrittenPart): seq<string>
    requires Admissible(w)
  {
    seq(Count(w) * RangeSize(w), k requires k >= 0 => Account(w, Shown(Mode(w), Count(w), RangeSize(w), k)))
  }

  function AllAccounts(ws: seq<WrittenPart>): seq<string>
    requires forall i :: 0 <= i < |ws| ==> Admissible(ws[i])
  {
    if ws == [] then [] else Accounts(ws[0]) + AllAccounts(ws[1..])
  }

  function PrintAll(ws: seq<WrittenPart>): (parts: seq<string>)
    ensures |parts| == |ws| && forall i :: 0 <= i < |ws| ==> parts[i] == Print(ws[i])
  {
    seq(|ws|, i requires 0 <= i < |ws| => Print(ws[i]))
  }

  /** The pattern, parts between commas. */
  function Pattern(ws: seq<WrittenPart>): string {
    Join(PrintAll(ws), ',')
  }

  // What the parser makes of a written part.
  function Parsed(w: WrittenPart): Part
    requires Admissible(w)
  {
    var differ := w.start != Last(w);
    Part(w.prefix, w.start, Last(w), w.suffix, Mode(w), Count(w),
         if differ then Value(w.start) else 0, if differ then Value(Last(w)) else 0)
  }

  lemma DigitsWithout(s: string, chars: string)
    requires AllDigits(s) && forall i :: 0 <= i < |chars| ==> !IsDigit(chars[i])
    ensures Without(s, chars)
  {
  }

  lemma RangeWithout(w: WrittenPart)
    requires Admissible(w)
    ensures Range(w) != "" && Without(Range(w), ",{}[]")
  {
    if w.end.Some? {
      DigitsWithout(w.end.value, ",{}[]-");
      assert ",{}[]-"[..5] == ",{}[]";
      assert forall i :: 0 <= i < 5 ==> ",{}[]"[i] == ",{}[]-"[i] && ",{}[]"[i] != '-';
    } else {
      assert forall i :: 0 <= i < 5 ==> ",{}[]"[i] == ",{}[]-"[i];
    }
  }

  lemma SplitsRange(w: WrittenPart)
    requires Admissible(w)
    ensures Split(Range(w), '-') == if w.end.None? then [w.start] else [w.start, w.end.value]
  {
    assert ",{}[]-"[5] !in w.start;
    if w.end.Some? {
      DigitsWithout(w.end.value, "-");
      assert "-"[0] !in w.end.value;
      var parts := [w.start, w.end.value];
      assert parts[1..] == [w.end.value];
      assert Join(parts, '-') == Range(w);
      SplitOfJoin(parts, '-');
    } else {
      SplitOfJoin([w.start], '-');
    }
  }

  lemma CutsRange(w: WrittenPart)
    requires Admissible(w)
    ensures CutRange(Range(w)) == Ok((w.start, Last(w)))
  {
    RangeWithout(w);
    SplitsRange(w);
    var chars, range := ",{}[]", Range(w);
    assert chars[1] !in range && chars[2] !in range && chars[3] !in range && chars[4] !in range;
  }

  lemma ReadsRange(w: WrittenPart)
    requires Admissible(w)
    ensures ReadRange(w.start, Last(w)) == Ok((Parsed(w).nstart, Parsed(w).nend))
  {
  }

  lemma CutsBrackets(w: WrittenPart)
    requires Admissible(w)
    ensures CutBrackets(Core(w)) == Ok((w.prefix, Range(w), w.suffix))
  {
    RangeWithout(w);
    var core, range, chars := Core(w), Range(w), ",{}[]";
    assert chars[3] !in range && chars[4] !in range;
    if w.brackets {
      assert ",{[]"[2] !in w.prefix && ",{[]"[3] !in w.prefix;
      InBrackets(w.prefix, range, w.suffix);
    } else {
      assert IndexOf(core, '[') == -1 && IndexOf(core, ']') == -1;
    }
  }

  lemma CoreWithout(w: WrittenPart)
    requires Admissible(w)
    ensures Core(w) != "" && ',' !in Core(w) && '{' !in Core(w)
    ensures w.repeat.None? ==> Core(w)[|Core(w)| - 1] != '}'
  {
    RangeWithout(w);
    var chars := ",{}[]";
    assert chars[0] !in Range(w) && chars[1] !in Range(w) && chars[2] !in Range(w);
    assert ",{[]"[0] !in w.prefix && ",{[]"[1] !in w.prefix;
    assert ",{"[0] !in w.suffix && ",{"[1] !in w.suffix;
    assert Range(w)[|Range(w)| - 1] in Range(w);
  }

  lemma CutsRepeat(w: WrittenPart)
    requires Admissible(w)
    ensures CutRepeat(Print(w)) == Ok((if w.repeat.None? then "1" else RepeatText(w.repeat.value), Core(w)))
  {
    CoreWithout(w);
    var part, core := Print(w), Core(w);
    if w.repeat.None? {
      assert part == core;
    } else {
      var text := RepeatText(w.repeat.value);
      assert part == core + "{" + text + "}";
      assert part[..|core|] == core && part[|core| + 1..|part| - 1] == text;
      IndexIs(part, '{', |core|);
    }
  }

  lemma ReadsRepeat(w: WrittenPart)
    requires Admissible(w)
    ensures var text := if w.repeat.None? then "1" else RepeatText(w.repeat.value);
            var special := text != "" && text[0] == '@';
            special == Mode(w) && Atoi(if special then text[1..] else text) == Ok(Count(w))
  {
    if w.repeat.None? {
      assert ToDecimal(1) == "1";
      AtoiOfDecimal(1);
    } else {
      var n := w.repeat.value.1;
      AtoiOfDecimal(n);
      assert "" + ToDecimal(n) == ToDecimal(n);
      assert ("@" + ToDecimal(n))[1..] == ToDecimal(n);
    }
  }

  lemma ParsesPart(w: WrittenPart)
    requires Admissible(w)
    ensures ParsePart(Print(w)) == Ok(Parsed(w))
  {
    CutsRepeat(w);
    ReadsRepeat(w);
    CutsBrackets(w);
    CutsRange(w);
    ReadsRange(w);
  }

  lemma ParsedSize(w: WrittenPart)
    requires Admissible(w)
    ensures Size(Parsed(w)) == if Wraps(w) then -MAX_INT - 1 else RangeSize(w)
  {
    if w.start == Last(w) {
    } else {
      SizeWraps(Parsed(w));
    }
  }

  lemma ParsedItem(w: WrittenPart, j: nat)
    requires Admissible(w) && j < RangeSize(w)
    ensures Item(Parsed(w), j) == Account(w, j)
  {
    assert Number(Parsed(w), j) == (if w.end.None? then w.start else Padded(Value(w.start) + j, |w.start|)) by {
      if w.end.Some? {
        if w.start == w.end.value {
          assert j == 0;
          PaddedOfValue(w.start);
        } else {
          assert Parsed(w).nstart == Value(w.start);
        }
      }
    }
  }

  /** What the parser makes of a part: nothing at all if its range wraps around. */
  function Expansion(w: WrittenPart): seq<string>
    requires Admissible(w)
  {
    if Wraps(w) then [] else Accounts(w)
  }

  function AllExpansions(ws: seq<WrittenPart>): seq<string>
    requires forall i :: 0 <= i < |ws| ==> Admissible(ws[i])
  {
    if ws == [] then [] else Expansion(ws[0]) + AllExpansions(ws[1..])
  }

  lemma ExpandsPart(w: WrittenPart)
    requires Admissible(w)
    ensures Expand(Parsed(w)) == Expansion(w)
  {
    var p := Parsed(w);
    ParsedSize(w);
    ExpandedLength(p);
    if Wraps(w) {
      assert |Expand(p)| == Times(p.nrepeat) * 0 == 0;
    } else {
      ExpandsWhole(w);
    }
  }

  lemma ExpandsWhole(w: WrittenPart)
    requires Admissible(w) && !Wraps(w)
    ensures Expand(Parsed(w)) == Accounts(w)
  {
    var p := Parsed(w);
    ParsedSize(w);
    ExpandedLength(p);
    var accounts := Accounts(w);
    forall k | 0 <= k < |Expand(p)|
      ensures Expand(p)[k] == accounts[k]
    {
      ExpandedItem(p, k);
      ParsedItem(w, Shown(p.special, p.nrepeat, Size(p), k));
    }
  }

  lemma {:induction false} ParsesParts(ws: seq<WrittenPart>)
    requires forall i :: 0 <= i < |ws| ==> Admissible(ws[i])
    ensures ParseParts(PrintAll(ws)) == Ok(AllExpansions(ws))
  {
    if ws != [] {
      ParsesPart(ws[0]);
      ExpandsPart(ws[0]);
      ParsesParts(ws[1..]);
      assert PrintAll(ws)[1..] == PrintAll(ws[1..]);
    }
  }

  /** Every part that is not repeated zero times has a range that does not wrap around. */
  predicate NoneWraps(ws: seq<WrittenPart>)
    requires forall i :: 0 <= i < |ws| ==> Admissible(ws[i])
  {
    forall i :: 0 <= i < |ws| ==> !Wraps(ws[i]) || Count(ws[i]) == 0
  }

  lemma NoneWrapsFrom(ws: seq<WrittenPart>)
    requires ws != [] && forall i :: 0 <= i < |ws| ==> Admissible(ws[i])
    ensures NoneWraps(ws) <==> (!Wraps(ws[0]) || Count(ws[0]) == 0) && NoneWraps(ws[1..])
  {
    assert forall i :: 0 < i < |ws| ==> ws[i] == ws[1..][i - 1];
  }

  lemma ExpansionLength(w: WrittenPart)
    requires Admissible(w)
    ensures |Expansion(w)| <= |Accounts(w)|
    ensures Expansion(w) == Accounts(w) <==> !Wraps(w) || Count(w) == 0
    ensures |Expansion(w)| == |Accounts(w)| ==> Expansion(w) == Accounts(w)
  {
    if Count(w) > 0 {
      AtLeastOnce(Count(w), RangeSize(w));
    } else {
      assert |Accounts(w)| == 0 * RangeSize(w) == 0;
    }
  }

  lemma {:induction false} ExpansionsExactly(ws: seq<WrittenPart>)
    requires forall i :: 0 <= i < |ws| ==> Admissible(ws[i])
    ensures |AllExpansions(ws)| <= |AllAccounts(ws)|
    ensures |AllExpansions(ws)| == |AllAccounts(ws)| <==> NoneWraps(ws)
    ensures NoneWraps(ws) ==> AllExpansions(ws) == AllAccounts(ws)
  {
    if ws != [] {
      ExpansionLength(ws[0]);
      ExpansionsExactly(ws[1..]);
      NoneWrapsFrom(ws);
    }
  }

  lemma PrintWithoutComma(w: WrittenPart)
    requires Admissible(w)
    ensures ',' !in Print(w)
  {
    CoreWithout(w);
    if w.repeat.Some? {
      var digits := ToDecimal(w.repeat.value.1);
      DigitsWithout(digits, ",");
      assert ","[0] !in digits;
    }
  }

  /** What parsing a written pattern gives. */
  lemma ParsesPattern(ws: seq<WrittenPart>)
    requires ws != [] && forall i :: 0 <= i < |ws| ==> Admissible(ws[i])
    ensures ParsePattern(Pattern(ws)) == Ok(AllExpansions(ws))
  {
    var parts := PrintAll(ws);
    forall i | 0 <= i < |parts|
      ensures ',' !in parts[i]
    {
      PrintWithoutComma(ws[i]);
    }
    SplitOfJoin(parts, ',');
    ParsesParts(ws);
  }

  /** Pattern round trip: parsing a written pattern gives the accounts it stands for exactly when no
      part of it has a range that wraps around, but for parts that are repeated zero times. */
  lemma PatternRoundTrip(ws: seq<WrittenPart>)
    requires ws != [] && forall i :: 0 <= i < |ws| ==> Admissible(ws[i])
    ensures ParsePattern(Pattern(ws)) == Ok(AllAccounts(ws)) <==> NoneWraps(ws)
  {
    ParsesPattern(ws);
    ExpansionsExactly(ws);
  }

  lemma AccountsOfOne(w: WrittenPart)
    requires Admissible(w) && w.end.None? && !Mode(w)
    ensures Accounts(w) == Copies(w.prefix + w.start + w.suffix, Count(w))
  {
    assert |Accounts(w)| == Count(w) * 1 == Count(w);
    assert forall k :: 0 <= k < |Accounts(w)| ==> Accounts(w)[k] == w.prefix + w.start + w.suffix;
  }

  lemma OnePartPattern(w: WrittenPart)
    requires Admissible(w)
    ensures ParsePattern(Print(w)) == Ok(Expansion(w))
  {
    ParsesPattern([w]);
    assert PrintAll([w]) == [Print(w)];
    assert Pattern([w]) == Print(w);
    assert AllExpansions([w][1..]) == [];
    assert AllExpansions([w]) == Expansion(w) + [];
    assert Expansion(w) + [] == Expansion(w);
  }

  /** The widest range, in any number of digits: all 2^63 numbers are asked for, and none comes. */
  lemma WidestRangeIsEmpty(last: string)
    requires AllDigits(last) && Value(last) == MAX_INT
    ensures ParsePattern(Zeros(|last|) + "-" + last) == Ok([])
  {
    var w := WrittenPart("", Zeros(|last|), Some(last), "", false, None);
    WidestIsAdmissible(last);
    hide ParsePattern, Value, Print;
    OnePartPattern(w);
  }

  lemma WidestIsAdmissible(last: string)
    requires AllDigits(last) && Value(last) == MAX_INT
    ensures var w := WrittenPart("", Zeros(|last|), Some(last), "", false, None);
            Admissible(w) && Wraps(w) && Print(w) == Zeros(|last|) + "-" + last
  {
    LeadingZeros(|last|, "");
    assert Zeros(|last|) + "" == Zeros(|last|);
    assert last != "";
    var w := WrittenPart("", Zeros(|last|), Some(last), "", false, None);
    DigitsWithout(w.start, ",{}[]-");
    assert Print(w) == Range(w) + "" == Range(w);
  }

  lemma OneDigitMore(s: string, v: nat, d: nat) returns (s': string, v': nat)
    requires AllDigits(s) && Value(s) == v && d < 10
    ensures s' == s + [DigitChar(d)] && v' == v * 10 + d && AllDigits(s') && Value(s') == v'
  {
    s', v' := s + [DigitChar(d)], v * 10 + d;
    assert s'[..|s|] == s;
  }

  lemma WidestNumber()
    ensures AllDigits("9223372036854775807") && Value("9223372036854775807") == MAX_INT
  {
    var s, v := "", 0;
    assert AllDigits(s) && Value(s) == 0;
    hide Value, AllDigits;
    s, v := OneDigitMore(s, v, 9);
    s, v := OneDigitMore(s, v, 2);
    s, v := OneDigitMore(s, v, 2);
    s, v := OneDigitMore(s, v, 3);
    s, v := OneDigitMore(s, v, 3);
    s, v := OneDigitMore(s, v, 7);
    s, v := OneDigitMore(s, v, 2);
    s, v := OneDigitMore(s, v, 0);
    s, v := OneDigitMore(s, v, 3);
    s, v := OneDigitMore(s, v, 6);
    s, v := OneDigitMore(s, v, 8);
    s, v := OneDigitMore(s, v, 5);
    s, v := OneDigitMore(s, v, 4);
    s, v := OneDigitMore(s, v, 7);
    s, v := OneDigitMore(s, v, 7);
    s, v := OneDigitMore(s, v, 5);
    s, v := OneDigitMore(s, v, 8);
    s, v := OneDigitMore(s, v, 0);
    s, v := OneDigitMore(s, v, 7);
    assert v == MAX_INT && s == "9223372036854775807";
  }

  /** Written out. */
  lemma WidestPatternIsEmpty()
    ensures ParsePattern("0000000000000000000-9223372036854775807") == Ok([])
  {
    WidestNumber();
    hide ParsePattern, Value;
    assert Zeros(19) + "-" + "9223372036854775807" == "0000000000000000000-9223372036854775807";
    WidestRangeIsEmpty("9223372036854775807");
  }

  lemma PrintBare(start: string, n: nat)
    ensures Print(WrittenPart("", start, None, "", false, Some((false, n)))) == start + ("{" + ToDecimal(n) + "}")
  {
    var w := WrittenPart("", start, None, "", false, Some((false, n)));
    assert Core(w) == start;
    assert RepeatText((false, n)) == ToDecimal(n);
  }

  /** fmt.Sprintf("0{%d}", n) */
  function DefaultPattern(n: nat): string {
    "0" + ("{" + ToDecimal(n) + "}")
  }

  /** The default port pattern gives one "0" for each account. */
  lemma DefaultPorts(n: nat)
    requires n <= MAX_INT
    ensures ParsePattern(DefaultPattern(n)) == Ok(Copies("0", n))
  {
    var w := WrittenPart("", "0", None, "", false, Some((false, n)));
    PrintBare("0", n);
    OnePartPattern(w);
    AccountsOfOne(w);
    assert w.prefix + w.start + w.suffix == "0";
  }
}
