/** The range patterns of profile/profile.go: "3810,3811-3849", "12aa34zz{40}", "0{@3}" and so on. */
module RangePattern {
  import opened Wrappers
  import opened Text
  import opened Decimal

  datatype PatternError =
    | UnmatchedBraces
    | RepeatNotInteger
    | UnmatchedBrackets
    | EmptyRange
    | RedundantBrackets
    | TooManyDashes
    | EmptyOrUnequal
    | StartNotInteger
    | EndNotInteger
    | EndLessThanStart

  /** One part between commas, taken apart; nstart and nend matter only if start and end differ. */
  datatype Part = Part(prefix: string, start: string, end: string, suffix: string,
                       special: bool, nrepeat: int, nstart: int, nend: int)

  /** The repeat count as text, and the part without it. */
  function CutRepeat(part: string): Result<(string, string), PatternError> {
    if part != "" && part[|part| - 1] == '}' then
      var bhead := IndexOf(part, '{');
      if bhead != -1 then Ok((part[bhead + 1..|part| - 1], part[..bhead])) else Err(UnmatchedBraces)
    else Ok(("1", part))
  }

  /** Prefix, range and suffix. */
  function CutBrackets(part: string): Result<(string, string, string), PatternError> {
    var sbhead, sbtail := IndexOf(part, '['), IndexOf(part, ']');
    if !((sbhead == -1 && sbtail == -1) || (sbhead != -1 && sbtail != -1 && sbtail > sbhead)) then Err(UnmatchedBrackets)
    else if sbhead != -1 then Ok((part[..sbhead], part[sbhead + 1..sbtail], part[sbtail + 1..]))
    else Ok(("", part, ""))
  }

  /** Start and end of a range. */
  function CutRange(range: string): Result<(string, string), PatternError> {
    if range == "" then Err(EmptyRange)
    else if '{' in range || '}' in range || '[' in range || ']' in range then Err(RedundantBrackets)
    else
      var numbers := Split(range, '-');
      if |numbers| > 2 then Err(TooManyDashes)
      else
        var start, end := numbers[0], numbers[|numbers| - 1];
        if start == "" || end == "" || |start| != |end| then Err(EmptyOrUnequal) else Ok((start, end))
  }

  function ReadRange(start: string, end: string): Result<(int, int), PatternError> {
    if start == end then Ok((0, 0))
    else
      var nstart, nend := Atoi(start), Atoi(end);
      if nstart.Err? then Err(StartNotInteger)
      else if nend.Err? then Err(EndNotInteger)
      else if nend.value < nstart.value then Err(EndLessThanStart)
      else Ok((nstart.value, nend.value))
  }

  function ParsePart(part: string): Result<Part, PatternError> {
    match CutRepeat(part)
    case Err(e) => Err(e)
    case Ok((text, part)) =>
      var special := text != "" && text[0] == '@';
      var nrepeat := Atoi(if special then text[1..] else text);
      if nrepeat.Err? then Err(RepeatNotInteger)
      else
        match CutBrackets(part)
        case Err(e) => Err(e)
        case Ok((prefix, range, suffix)) =>
          match CutRange(range)
          case Err(e) => Err(e)
          case Ok((start, end)) =>
            match ReadRange(start, end)
            case Err(e) => Err(e)
            case Ok((nstart, nend)) => Ok(Part(prefix, start, end, suffix, special, nrepeat.value, nstart, nend))
  }

  /** How many numbers the loops run over: nend-nstart+1 in 64-bit arithmetic. */
  function Size(p: Part): int {
    if p.start == p.end then 1 else Wrap(p.nend - p.nstart + 1)
  }

  function Number(p: Part, j: int): string {
    if p.start == p.end || p.nstart + j < 0 then p.start else Padded(p.nstart + j, |p.start|)
  }

  function Item(p: Part, j: int): string {
    p.prefix + Number(p, j) + p.suffix
  }

  function Block(p: Part): (block: seq<string>)
    ensures |block| == if Size(p) < 0 then 0 else Size(p)
  {
    seq(if Size(p) < 0 then 0 else Size(p), j => Item(p, j))
  }

  function Copies(item: string, n: int): (items: seq<string>)
    ensures |items| == (if n < 0 then 0 else n) && forall k :: 0 <= k < |items| ==> items[k] == item
  {
    seq(if n < 0 then 0 else n, _ => item)
  }

  /** block ... block */
  function Repeat(block: seq<string>, n: int): seq<string>
    decreases if n < 0 then 0 else n
  {
    if n <= 0 then [] else Repeat(block, n - 1) + block
  }

  /** first ... first second ... second ... */
  function RepeatEach(block: seq<string>, n: int): seq<string> {
    if block == [] then [] else RepeatEach(block[..|block| - 1], n) + Copies(block[|block| - 1], n)
  }

  function Expand(p: Part): seq<string> {
    if p.special then RepeatEach(Block(p), p.nrepeat) else Repeat(Block(p), p.nrepeat)
  }

  function Prepend(items: seq<string>, r: Result<seq<string>, PatternError>): Result<seq<string>, PatternError> {
    match r
    case Ok(more) => Ok(items + more)
    case Err(e) => Err(e)
  }

  function ParseParts(parts: seq<string>): Result<seq<string>, PatternError> {
    if parts == [] then Ok([])
    else
      match ParsePart(parts[0])
      case Err(e) => Err(e)
      case Ok(p) => Prepend(Expand(p), ParseParts(parts[1..]))
  }

  function ParsePattern(rp: string): Result<seq<string>, PatternError> {
    ParseParts(Split(rp, ','))
  }

  /* ---------- the loops ---------- */

  lemma BlockAt(p: Part, j: nat)
    requires j < |Block(p)|
    ensures Block(p)[j] == Item(p, j)
  {
  }

  lemma SingleBlock(p: Part)
    requires p.start == p.end
    ensures Block(p) == [p.prefix + p.start + p.suffix]
  {
    assert |Block(p)| == 1;
    BlockAt(p, 0);
  }

  // prefix+fmt.Sprintf(numberFmt, nstart+j)+suffix
  method FormatItem(p: Part, j: nat) returns (item: string)
    requires p.start != p.end && p.nstart >= 0 && j < |Block(p)|
    ensures item == Block(p)[j]
  {
    BlockAt(p, j);
    item := p.prefix + Padded(p.nstart + j, |p.start|) + p.suffix;
  }

  lemma TakeOneMore(block: seq<string>, j: nat)
    requires j < |block|
    ensures block[..j + 1] == block[..j] + [block[j]]
  {
  }

  lemma TakeAll(block: seq<string>)
    ensures block[..|block|] == block
  {
  }

  lemma Regroup(a: seq<string>, b: seq<string>, c: seq<string>)
    ensures a + b + c == a + (b + c)
  {
  }

  // start-end once
  method AppendBlock(p: Part, ret: seq<string>) returns (ret': seq<string>)
    requires p.start != p.end ==> p.nstart >= 0
    ensures ret' == ret + Block(p)
  {
    ret' := ret;
    if p.start != p.end {
      var size := Wrap(p.nend - p.nstart + 1);
      assert size == Size(p);
      var j := 0;
      while j < size
        invariant 0 <= j <= |Block(p)|
        invariant ret' == ret + Block(p)[..j]
      {
        var item := FormatItem(p, j);
        TakeOneMore(Block(p), j);
        ret' := ret' + [item];
        j := j + 1;
      }
      TakeAll(Block(p));
    } else {
      SingleBlock(p);
      ret' := ret' + [p.prefix + p.start + p.suffix];
    }
  }

  method AppendCopies(item: string, n: int, ret: seq<string>) returns (ret': seq<string>)
    ensures ret' == ret + Copies(item, n)
  {
    ret' := ret;
    var j := 0;
    while j < n
      invariant 0 <= j && (j <= n || j == 0)
      invariant ret' == ret + Copies(item, j)
    {
      ret' := ret' + [item];
      j := j + 1;
    }
    assert Copies(item, j) == Copies(item, n);
  }

  // [start-end]{repeat}
  method AppendPlain(p: Part, ret: seq<string>) returns (ret': seq<string>)
    requires p.start != p.end ==> p.nstart >= 0
    ensures ret' == ret + Repeat(Block(p), p.nrepeat)
  {
    ret' := ret;
    var i := 0;
    while i < p.nrepeat
      invariant 0 <= i && (i <= p.nrepeat || i == 0)
      invariant ret' == ret + Repeat(Block(p), i)
    {
      ret' := AppendBlock(p, ret');
      i := i + 1;
    }
  }

  lemma RepeatEachOneMore(block: seq<string>, item: string, n: int)
    ensures RepeatEach(block + [item], n) == RepeatEach(block, n) + Copies(item, n)
  {
    assert (block + [item])[..|block|] == block;
  }

  // start{repeat} ... end{repeat}
  method AppendEach(p: Part, ret: seq<string>) returns (ret': seq<string>)
    requires p.start != p.end && p.nstart >= 0
    ensures ret' == ret + RepeatEach(Block(p), p.nrepeat)
  {
    ret' := ret;
    var size := Wrap(p.nend - p.nstart + 1);
    assert size == Size(p);
    var i := 0;
    while i < size
      invariant 0 <= i <= |Block(p)|
      invariant ret' == ret + RepeatEach(Block(p)[..i], p.nrepeat)
    {
      var item := FormatItem(p, i);
      TakeOneMore(Block(p), i);
      RepeatEachOneMore(Block(p)[..i], item, p.nrepeat);
      Regroup(ret, RepeatEach(Block(p)[..i], p.nrepeat), Copies(item, p.nrepeat));
      ret' := AppendCopies(item, p.nrepeat, ret');
      i := i + 1;
    }
    TakeAll(Block(p));
  }

  // [start-end]{@repeat}
  method AppendSpecial(p: Part, ret: seq<string>) returns (ret': seq<string>)
    requires p.start != p.end ==> p.nstart >= 0
    ensures ret' == ret + RepeatEach(Block(p), p.nrepeat)
  {
    if p.start != p.end {
      ret' := AppendEach(p, ret);
    } else {
      var item := p.prefix + p.start + p.suffix;
      ret' := AppendCopies(item, p.nrepeat, ret);
      SingleBlock(p);
      RepeatEachOneMore([], item, p.nrepeat);
      assert [] + [item] == [item] && [] + Copies(item, p.nrepeat) == Copies(item, p.nrepeat);
    }
  }

  lemma NoMinusNotNegative(s: string)
    requires '-' !in s && Atoi(s).Ok?
    ensures 0 <= Atoi(s).value <= MAX_INT
  {
  }

  lemma RangeIsNotNegative(range: string)
    requires CutRange(range).Ok? && ReadRange(CutRange(range).value.0, CutRange(range).value.1).Ok?
    ensures var (start, end) := CutRange(range).value;
            var (nstart, nend) := ReadRange(start, end).value;
            0 <= nstart <= nend <= MAX_INT
  {
    var (start, end) := CutRange(range).value;
    if start != end {
      NoMinusNotNegative(start);
      NoMinusNotNegative(end);
    }
  }

  // A range taken apart
  method ReadRangeOf(part: string) returns (r: Result<(string, string, int, int), PatternError>)
    ensures r == match CutRange(part)
                 case Err(e) => Err(e)
                 case Ok((start, end)) =>
                   (match ReadRange(start, end) case Err(e) => Err(e) case Ok((nstart, nend)) => Ok((start, end, nstart, nend)))
    ensures r.Ok? ==> r.value.2 >= 0
  {
    if part == "" {
      return Err(EmptyRange);
    }
    if '{' in part || '}' in part || '[' in part || ']' in part {
      return Err(RedundantBrackets);
    }
    var numbers := Split(part, '-');
    var start, end;
    if |numbers| == 2 {
      start, end := numbers[0], numbers[1];
    } else if |numbers| == 1 {
      start, end := numbers[0], numbers[0];
    } else {
      return Err(TooManyDashes);
    }
    if start == "" || end == "" || |start| != |end| {
      return Err(EmptyOrUnequal);
    }
    assert CutRange(part) == Ok((start, end));
    var nstart, nend := 0, 0;
    if start != end {
      var first := Atoi(start);
      if first.Err? {
        return Err(StartNotInteger);
      }
      nstart := first.value;
      var last := Atoi(end);
      if last.Err? {
        return Err(EndNotInteger);
      }
      nend := last.value;
      if nend < nstart {
        return Err(EndLessThanStart);
      }
    }
    RangeIsNotNegative(part);
    return Ok((start, end, nstart, nend));
  }

  // One pass of the loop over the parts
  method ReadPart(text: string, ret: seq<string>) returns (r: Result<seq<string>, PatternError>)
    ensures r == match ParsePart(text) case Err(e) => Err(e) case Ok(p) => Ok(ret + Expand(p))
  {
    var part, repeat := text, "1";
    if |part| >= 1 && part[|part| - 1] == '}' {
      var bhead := IndexOf(part, '{');
      if bhead != -1 {
        repeat := part[bhead + 1..|part| - 1];
        part := part[..bhead];
      } else {
        return Err(UnmatchedBraces);
      }
    }
    assert CutRepeat(text) == Ok((repeat, part));
    var special := false;
    if repeat != "" && repeat[0] == '@' {
      special := true;
      repeat := repeat[1..];
    }
    var nrepeat := Atoi(repeat);
    if nrepeat.Err? {
      return Err(RepeatNotInteger);
    }
    var prefix, suffix := "", "";
    ghost var uncut := part;
    var sbhead, sbtail := IndexOf(part, '['), IndexOf(part, ']');
    if !((sbhead == -1 && sbtail == -1) || (sbhead != -1 && sbtail != -1 && sbtail > sbhead)) {
      return Err(UnmatchedBrackets);
    }
    if sbhead != -1 {
      prefix := part[..sbhead];
      suffix := part[sbtail + 1..];
      part := part[sbhead + 1..sbtail];
    }
    assert CutBrackets(uncut) == Ok((prefix, part, suffix));
    var range := ReadRangeOf(part);
    if range.Err? {
      return Err(range.error);
    }
    var (start, end, nstart, nend) := range.value;
    var p := Part(prefix, start, end, suffix, special, nrepeat.value, nstart, nend);
    assert ParsePart(text) == Ok(p);
    var ret' := ret;
    if !special {
      ret' := AppendPlain(p, ret');
    } else {
      ret' := AppendSpecial(p, ret');
    }
    return Ok(ret');
  }

  lemma PrependTwice(a: seq<string>, b: seq<string>, r: Result<seq<string>, PatternError>)
    ensures Prepend(a, Prepend(b, r)) == Prepend(a + b, r)
  {
    if r.Ok? {
      assert a + (b + r.value) == a + b + r.value;
    }
  }

  /** parseRangePattern: the parts in order; the first faulty part decides. */
  method ParseRangePattern(rp: string) returns (r: Result<seq<string>, PatternError>)
    ensures r == ParsePattern(rp)
  {
    var ret: seq<string> := [];
    var parts := Split(rp, ',');
    assert Prepend([], ParseParts(parts)) == ParseParts(parts) by {
      assert ParseParts(parts).Ok? ==> [] + ParseParts(parts).value == ParseParts(parts).value;
    }
    for k := 0 to |parts|
      invariant ParseParts(parts) == Prepend(ret, ParseParts(parts[k..]))
    {
      assert parts[k..][1..] == parts[k + 1..];
      var read := ReadPart(parts[k], ret);
      if read.Err? {
        return Err(read.error);
      }
      PrependTwice(ret, Expand(ParsePart(parts[k]).value), ParseParts(parts[k + 1..]));
      ret := read.value;
    }
    assert ret + [] == ret;
    return Ok(ret);
  }
}
