/** ParseCallProfile of profile/profile.go: the fields that its checks, defaults and clamps touch,
    from what the JSON decoder left in them. */
module CallProfile {
  import opened Wrappers
  import opened Decimal
  import opened RangePattern
  import opened PatternLaws

  datatype Profile = Profile(
    logType: string, transport: string, role: string, mediaType: string,
    accounts: string, passwords: string, calledParties: string, localPorts: string,
    internalAccounts: seq<string>, internalPasswords: seq<string>,
    internalCalledParties: seq<string>, internalLocalPorts: seq<string>,
    maxConcurrentCalls: int, totalCalls: int, videoFileFps: int)

  datatype ProfileError =
    | UnknownLogType
    | BadAccounts(e: PatternError)
    | BadPasswords(e: PatternError)
    | BadCalledParties(e: PatternError)
    | BadLocalPorts(e: PatternError)
    | UnequalLength
    | UnknownTransport
    | UnknownRole
    | TooManyConcurrentCalls
    | UnknownMediaType

  predicate KnownTransport(transport: string) {
    transport == "udp" || transport == "tcp" || transport == "tls" || transport == "ws" || transport == "wss"
  }

  predicate KnownLogType(logType: string) {
    logType == "file" || logType == "console"
  }

  predicate IsUac(role: string) { role == "uac" }

  predicate KnownRole(role: string) {
    IsUac(role) || role == "uas"
  }

  predicate KnownMediaType(mediaType: string) {
    mediaType == "audio" || mediaType == "video"
  }

  /** The port pattern used: one "0" per account unless ports are given. */
  function PortPattern(localPorts: string, accounts: nat): string {
    if localPorts == "" || localPorts == "0" then DefaultPattern(accounts) else localPorts
  }

  function Requested(maxConcurrentCalls: int, accounts: nat): int {
    if maxConcurrentCalls <= 0 then accounts else maxConcurrentCalls
  }

  /** A reading of range patterns. The program's is ParsePattern; what the checks and defaults
      below give does not depend on which one it is. */
  type Reading = string -> Result<seq<string>, PatternError>

  /** The accounts and their passwords, or the first pattern that is faulty. */
  function ParseAccounts(p: Profile, read: Reading): Result<Profile, ProfileError> {
    var accounts := read(p.accounts);
    if accounts.Err? then Err(BadAccounts(accounts.error)) else
    var passwords := read(p.passwords);
    if passwords.Err? then Err(BadPasswords(passwords.error)) else
    Ok(p.(internalAccounts := accounts.value, internalPasswords := passwords.value))
  }

  function PartiesOf(role: string, calledParties: string, internal: seq<string>, read: Reading): Result<seq<string>, PatternError> {
    if IsUac(role) then read(calledParties) else Ok(internal)
  }

  /** The called parties and the local ports, for accounts that have been read. */
  function ParseNumbers(p: Profile, read: Reading): Result<Profile, ProfileError> {
    var parties := PartiesOf(p.role, p.calledParties, p.internalCalledParties, read);
    if parties.Err? then Err(BadCalledParties(parties.error)) else
    var pattern := PortPattern(p.localPorts, |p.internalAccounts|);
    var ports := read(pattern);
    if ports.Err? then Err(BadLocalPorts(ports.error)) else
    Ok(p.(internalCalledParties := parties.value, localPorts := pattern, internalLocalPorts := ports.value))
  }

  /** The lists behind the range patterns, or the first pattern that is faulty. */
  function ParseLists(p: Profile, read: Reading): Result<Profile, ProfileError> {
    match ParseAccounts(p, read)
    case Err(e) => Err(e)
    case Ok(q) => ParseNumbers(q, read)
  }

  // The checks and defaults after the lists.
  function Settle(p: Profile): Result<Profile, ProfileError> {
    var n := |p.internalAccounts|;
    if n == 0 || n > |p.internalPasswords| || (IsUac(p.role) && n > |p.internalCalledParties|) || n > |p.internalLocalPorts|
    then Err(UnequalLength)
    else if !KnownTransport(p.transport) then Err(UnknownTransport)
    else if !KnownRole(p.role) then Err(UnknownRole)
    else
      var requested := Requested(p.maxConcurrentCalls, n);
      if requested > n then Err(TooManyConcurrentCalls)
      else if IsUac(p.role) && !KnownMediaType(p.mediaType) then Err(UnknownMediaType)
      else Ok(p.(maxConcurrentCalls := if 0 < p.totalCalls < requested then p.totalCalls else requested,
                 videoFileFps := if p.videoFileFps <= 0 then 15 else p.videoFileFps))
  }

  /** The completed profile, or what is wrong with it. */
  function Parse(p: Profile, read: Reading): Result<Profile, ProfileError> {
    if !KnownLogType(p.logType) then Err(UnknownLogType)
    else
      match ParseLists(p, read)
      case Err(e) => Err(e)
      case Ok(q) => Settle(q)
  }

  /** What a profile must be to be accepted, checks in no particular order. */
  predicate Accepted(p: Profile, read: Reading) {
    && p.logType in {"file", "console"} && p.transport in {"udp", "tcp", "tls", "ws", "wss"} && p.role in {"uac", "uas"}
    && (p.role == "uac" ==> p.mediaType in {"audio", "video"})
    && var accounts, passwords := read(p.accounts), read(p.passwords);
    && accounts.Ok? && passwords.Ok? && 0 < |accounts.value| <= |passwords.value|
    && (p.role == "uac" ==>
          var parties := read(p.calledParties);
          parties.Ok? && |accounts.value| <= |parties.value|)
    && p.maxConcurrentCalls <= |accounts.value|
    && var ports := read(if p.localPorts in {"", "0"} then DefaultPattern(|accounts.value|) else p.localPorts);
    && ports.Ok? && |accounts.value| <= |ports.value|
  }

  lemma ParsesExactlyAccepted(p: Profile, read: Reading)
    ensures Parse(p, read).Ok? <==> Accepted(p, read)
  {
  }

  /* ---------- what is refused, and why ---------- */

  // A list that a pattern gives, empty for a faulty one.
  function Listed(r: Result<seq<string>, PatternError>): seq<string> {
    if r.Ok? then r.value else []
  }

  /** The faults a profile can have, numbered in the order in which they are looked for. */
  predicate Fault(p: Profile, read: Reading, k: nat) {
    var uac := p.role == "uac";
    var accounts, passwords, parties := read(p.accounts), read(p.passwords), read(p.calledParties);
    var n := |Listed(accounts)|;
    var ports := read(if p.localPorts in {"", "0"} then DefaultPattern(n) else p.localPorts);
    match k
    case 0 => p.logType !in {"file", "console"}
    case 1 => accounts.Err?
    case 2 => passwords.Err?
    case 3 => uac && parties.Err?
    case 4 => ports.Err?
    case 5 => n == 0 || n > |Listed(passwords)| || (uac && n > |Listed(parties)|) || n > |Listed(ports)|
    case 6 => p.transport !in {"udp", "tcp", "tls", "ws", "wss"}
    case 7 => p.role !in {"uac", "uas"}
    case 8 => p.maxConcurrentCalls > n
    case 9 => uac && p.mediaType !in {"audio", "video"}
    case _ => false
  }

  function FaultNumber(e: ProfileError): nat {
    match e
    case UnknownLogType => 0
    case BadAccounts(_) => 1
    case BadPasswords(_) => 2
    case BadCalledParties(_) => 3
    case BadLocalPorts(_) => 4
    case UnequalLength => 5
    case UnknownTransport => 6
    case UnknownRole => 7
    case TooManyConcurrentCalls => 8
    case UnknownMediaType => 9
  }

  lemma ErrorHasFault(p: Profile, read: Reading)
    requires Parse(p, read).Err?
    ensures Fault(p, read, FaultNumber(Parse(p, read).error))
  {
  }

  lemma ErrorIsFirst(p: Profile, read: Reading)
    requires Parse(p, read).Err?
    ensures forall j :: 0 <= j < FaultNumber(Parse(p, read).error) ==> !Fault(p, read, j)
  {
    match Parse(p, read).error
    case UnknownLogType =>
    case BadAccounts(_) =>
    case BadPasswords(_) =>
    case BadCalledParties(_) =>
    case BadLocalPorts(_) =>
    case UnequalLength =>
    case UnknownTransport =>
    case UnknownRole =>
    case TooManyConcurrentCalls =>
    case UnknownMediaType =>
  }

  /** A profile is refused exactly for the first fault it has, and accepted exactly without any. */
  lemma RefusedForFirstFault(p: Profile, read: Reading)
    ensures Parse(p, read).Ok? <==> forall k :: 0 <= k < 10 ==> !Fault(p, read, k)
    ensures Parse(p, read).Err? ==>
              var k := FaultNumber(Parse(p, read).error);
              Fault(p, read, k) && forall j :: 0 <= j < k ==> !Fault(p, read, j)
  {
    var r := Parse(p, read);
    if r.Err? {
      ErrorHasFault(p, read);
      ErrorIsFirst(p, read);
    }
    assert r.Ok? ==> !Fault(p, read, 0) && !Fault(p, read, 1) && !Fault(p, read, 2) && !Fault(p, read, 3)
                     && !Fault(p, read, 4) && !Fault(p, read, 5) && !Fault(p, read, 6) && !Fault(p, read, 7)
                     && !Fault(p, read, 8) && !Fault(p, read, 9);
  }

  /** Which pattern was faulty, and how. */
  lemma PatternFaultIsPassedOn(p: Profile, read: Reading)
    requires Parse(p, read).Err?
    ensures match Parse(p, read).error
            case BadAccounts(e) => read(p.accounts) == Err(e)
            case BadPasswords(e) => read(p.passwords) == Err(e)
            case BadCalledParties(e) => read(p.calledParties) == Err(e)
            case BadLocalPorts(e) => read(PortPattern(p.localPorts, |Listed(read(p.accounts))|)) == Err(e)
            case _ => true
  {
  }

  /** What an accepted profile becomes, field by field. */
  lemma CompletedProfile(p: Profile, read: Reading)
    requires Parse(p, read).Ok?
    ensures var q := Parse(p, read).value;
            var n := |q.internalAccounts|;
            var asked := if p.maxConcurrentCalls > 0 then p.maxConcurrentCalls else n;
            && read(p.accounts) == Ok(q.internalAccounts)
            && read(p.passwords) == Ok(q.internalPasswords)
            && (if p.role == "uac" then read(p.calledParties) == Ok(q.internalCalledParties)
                else q.internalCalledParties == p.internalCalledParties)
            && q.localPorts == (if p.localPorts in {"", "0"} then DefaultPattern(n) else p.localPorts)
            && read(q.localPorts) == Ok(q.internalLocalPorts)
            && q.maxConcurrentCalls == (if 0 < p.totalCalls < asked then p.totalCalls else asked)
            && q.videoFileFps == (if p.videoFileFps > 0 then p.videoFileFps else 15)
            && (q.logType, q.transport, q.role, q.mediaType) == (p.logType, p.transport, p.role, p.mediaType)
            && (q.accounts, q.passwords, q.calledParties) == (p.accounts, p.passwords, p.calledParties)
            && q.totalCalls == p.totalCalls
  {
  }

  /** Every account index the program runs with is valid in every list it indexes: the slots of the
      dispatcher (main.go:114-130) and the lookups of an agent (sip/ua.go:58, 76, 83, 115, 184). */
  lemma RunTimeBounds(p: Profile, read: Reading, n: nat)
    requires Parse(p, read).Ok? && n < Parse(p, read).value.maxConcurrentCalls
    ensures var q := Parse(p, read).value;
            && n < |q.internalAccounts| && n < |q.internalPasswords| && n < |q.internalLocalPorts|
            && (IsUac(q.role) ==> n < |q.internalCalledParties|)
            && (q.totalCalls > 0 ==> n < q.totalCalls)
  {
  }

  /** There is at least one slot, and no more than asked for where a number is asked for. */
  lemma SlotsWithinLimits(p: Profile, read: Reading)
    requires Parse(p, read).Ok?
    ensures var q := Parse(p, read).value;
            && 1 <= q.maxConcurrentCalls <= |q.internalAccounts|
            && (p.maxConcurrentCalls > 0 ==> q.maxConcurrentCalls <= p.maxConcurrentCalls)
            && (p.totalCalls <= 0 && p.maxConcurrentCalls <= 0 ==> q.maxConcurrentCalls == |q.internalAccounts|)
            && q.videoFileFps > 0
  {
  }

  // The ports come from the default pattern, however patterns are read.
  lemma DefaultPatternIsRead(p: Profile, read: Reading)
    requires Parse(p, read).Ok? && (p.localPorts == "" || p.localPorts == "0")
    ensures var q := Parse(p, read).value;
            read(DefaultPattern(|q.internalAccounts|)) == Ok(q.internalLocalPorts)
  {
  }

  /** Without ports in the profile every account gets its own "0". */
  lemma DefaultPortsFit(p: Profile)
    requires Parse(p, ParsePattern).Ok? && (p.localPorts == "" || p.localPorts == "0")
    requires |Parse(p, ParsePattern).value.internalAccounts| <= MAX_INT
    ensures var q := Parse(p, ParsePattern).value;
            q.internalLocalPorts == Copies("0", |q.internalAccounts|)
  {
    hide ParsePattern, ParseLists, Settle;
    DefaultPatternIsRead(p, ParsePattern);
    DefaultPorts(|Parse(p, ParsePattern).value.internalAccounts|);
  }

  lemma PortPatternIsStable(localPorts: string, n: nat, m: nat)
    ensures PortPattern(PortPattern(localPorts, n), m) == PortPattern(localPorts, n)
  {
    assert |DefaultPattern(n)| >= 2;
  }

  /** Parsing a completed profile again changes nothing. */
  lemma ParseIsIdempotent(p: Profile, read: Reading)
    requires Parse(p, read).Ok?
    ensures Parse(Parse(p, read).value, read) == Parse(p, read)
  {
    var q := ParseLists(p, read).value;
    PortPatternIsStable(p.localPorts, |q.internalAccounts|, |q.internalAccounts|);
    var r := Settle(q).value;
    assert ParseLists(r, read) == Ok(r);
    assert Settle(r) == Ok(r);
  }

  class CallProfile {
    var logType: string
    var transport: string
    var role: string
    var mediaType: string
    var accounts: string
    var passwords: string
    var calledParties: string
    var localPorts: string
    var internalAccounts: seq<string>
    var internalPasswords: seq<string>
    var internalCalledParties: seq<string>
    var internalLocalPorts: seq<string>
    var maxConcurrentCalls: int
    var totalCalls: int
    var videoFileFps: int

    function View(): Profile
      reads this
    {
      Profile(logType, transport, role, mediaType, accounts, passwords, calledParties, localPorts,
              internalAccounts, internalPasswords, internalCalledParties, internalLocalPorts,
              maxConcurrentCalls, totalCalls, videoFileFps)
    }

    constructor (p: Profile)
      ensures View() == p
    {
      logType, transport, role, mediaType := p.logType, p.transport, p.role, p.mediaType;
      accounts, passwords, calledParties, localPorts := p.accounts, p.passwords, p.calledParties, p.localPorts;
      internalAccounts, internalPasswords := p.internalAccounts, p.internalPasswords;
      internalCalledParties, internalLocalPorts := p.internalCalledParties, p.internalLocalPorts;
      maxConcurrentCalls, totalCalls, videoFileFps := p.maxConcurrentCalls, p.totalCalls, p.videoFileFps;
    }

    // The called parties, for a calling role only
    method ReadParties() returns (r: Result<seq<string>, PatternError>)
      ensures r == PartiesOf(role, calledParties, internalCalledParties, ParsePattern)
    {
      if IsUac(role) {
        r := ParseRangePattern(calledParties);
      } else {
        r := Ok(internalCalledParties);
      }
    }

    // The accounts and their passwords
    method ReadAccounts() returns (err: Option<ProfileError>)
      modifies this
      ensures match ParseAccounts(old(View()), ParsePattern)
              case Ok(q) => err.None? && View() == q
              case Err(e) => err == Some(e)
    {
      hide ParsePattern;
      var r := ParseRangePattern(accounts);
      if r.Err? {
        return Some(BadAccounts(r.error));
      }
      internalAccounts := r.value;
      r := ParseRangePattern(passwords);
      if r.Err? {
        return Some(BadPasswords(r.error));
      }
      internalPasswords := r.value;
      err := None;
    }

    // The called parties and the local ports
    method ReadNumbers() returns (err: Option<ProfileError>)
      modifies this
      ensures match ParseNumbers(old(View()), ParsePattern)
              case Ok(q) => err.None? && View() == q
              case Err(e) => err == Some(e)
    {
      hide ParsePattern, PartiesOf;
      var r := ReadParties();
      if r.Err? {
        return Some(BadCalledParties(r.error));
      }
      internalCalledParties := r.value;
      if localPorts == "" || localPorts == "0" {
        localPorts := DefaultPattern(|internalAccounts|);
      }
      r := ParseRangePattern(localPorts);
      if r.Err? {
        return Some(BadLocalPorts(r.error));
      }
      internalLocalPorts := r.value;
      err := None;
    }

    /** Leaves the completed profile or reports the first fault. */
    method ParseCallProfile() returns (err: Option<ProfileError>)
      modifies this
      ensures match Parse(old(View()), ParsePattern)
              case Ok(q) => err.None? && View() == q
              case Err(e) => err == Some(e)
    {
      hide ParsePattern, ParseAccounts, ParseNumbers;
      if !KnownLogType(logType) {
        return Some(UnknownLogType);
      }
      err := ReadAccounts();
      if err.Some? {
        return;
      }
      err := ReadNumbers();
      if err.Some? {
        return;
      }
      if |internalAccounts| == 0 || |internalAccounts| > |internalPasswords|
         || (IsUac(role) && |internalAccounts| > |internalCalledParties|)
         || |internalAccounts| > |internalLocalPorts| {
        return Some(UnequalLength);
      }
      if !KnownTransport(transport) {
        return Some(UnknownTransport);
      }
      if !KnownRole(role) {
        return Some(UnknownRole);
      }
      if maxConcurrentCalls <= 0 {
        maxConcurrentCalls := |internalAccounts|;
      }
      if maxConcurrentCalls > |internalAccounts| {
        return Some(TooManyConcurrentCalls);
      }
      if totalCalls > 0 && totalCalls < maxConcurrentCalls {
        maxConcurrentCalls := totalCalls;
      }
      if IsUac(role) {
        if !KnownMediaType(mediaType) {
          return Some(UnknownMediaType);
        }
      }
      if videoFileFps <= 0 {
        videoFileFps := 15;
      }
      return None;
    }
  }
}
