// The append-only audit log: one canonical file per event, each holding the
// hash of the one before, and a HEAD file naming the last.

// Decimal numerals as Python's str() and format(n, "020d") write them.
module Numerals {
  import opened Sorting

  function Digit(d: nat): char
    requires d < 10
  {
    '0' + d as char
  }

  predicate IsDigitChar(c: char) { '0' <= c <= '9' }

  function Decimal(n: nat): (s: string)
    ensures s != [] && forall i | 0 <= i < |s| :: IsDigitChar(s[i])
  {
    if n < 10 then [Digit(n)] else Decimal(n / 10) + [Digit(n % 10)]
  }

  // The last `width` digits, zeros included.
  function Fixed(n: nat, width: nat): (s: string)
    ensures |s| == width && forall i | 0 <= i < |s| :: IsDigitChar(s[i])
  {
    if width == 0 then [] else Fixed(n / 10, width - 1) + [Digit(n % 10)]
  }

  function Pow10(k: nat): nat {
    if k == 0 then 1 else 10 * Pow10(k - 1)
  }

  function Value(s: string): int {
    if s == [] then 0 else 10 * Value(s[..|s| - 1]) + (s[|s| - 1] as int - '0' as int)
  }

  lemma {:induction false} DecimalValue(n: nat)
    ensures Value(Decimal(n)) == n
  {
    if n >= 10 {
      DecimalValue(n / 10);
      assert Decimal(n)[..|Decimal(n)| - 1] == Decimal(n / 10);
    }
  }

  lemma DecimalInjective(a: nat, b: nat)
    requires Decimal(a) == Decimal(b)
    ensures a == b
  {
    DecimalValue(a);
    DecimalValue(b);
  }

  lemma {:induction false} DecimalLength(n: nat, k: nat)
    requires n >= Pow10(k)
    ensures |Decimal(n)| > k
  {
    if k > 0 {
      assert Pow10(k) == 10 * Pow10(k - 1) >= 10 by { Pow10Positive(k - 1); }
      DecimalLength(n / 10, k - 1);
    }
  }

  lemma {:induction false} Pow10Positive(k: nat)
    ensures Pow10(k) >= 1
  {
    if k > 0 { Pow10Positive(k - 1); }
  }

  lemma {:induction false} LexAppend(x: string, y: string, c: string, d: string)
    requires |x| == |y|
    ensures LexLess(x, y) ==> LexLess(x + c, y + d)
    ensures x == y ==> (LexLess(x + c, y + d) <==> LexLess(c, d))
  {
    if x == [] {
      assert x + c == c && y + d == d;
    } else {
      assert (x + c)[1..] == x[1..] + c && (y + d)[1..] == y[1..] + d;
      LexAppend(x[1..], y[1..], c, d);
    }
  }

  // Zero-padded names sort like the numbers they stand for.
  lemma {:induction false} FixedMonotone(a: nat, b: nat, width: nat)
    requires a < b < Pow10(width)
    ensures LexLess(Fixed(a, width), Fixed(b, width))
  {
    if width > 0 {
      var x, y := Fixed(a / 10, width - 1), Fixed(b / 10, width - 1);
      var c, d := [Digit(a % 10)], [Digit(b % 10)];
      LexAppend(x, y, c, d);
      if a / 10 < b / 10 {
        FixedMonotone(a / 10, b / 10, width - 1);
      } else {
        assert a / 10 == b / 10 && a % 10 < b % 10;
        assert LexLess(c, d);
      }
    }
  }
}

module AuditLog {
  import opened Foundations
  import opened Sorting
  import opened Machines
  import opened Numerals

  datatype Scalar = Text(text: string) | Number(number: int) | Flag(flag: bool) | Null

  datatype AuditEvent = AuditEvent(
    sequence: int,
    eventType: string,
    correlationId: string,
    fields: seq<(string, Scalar)>,
    createdAt: int,
    previousHash: Option<string>,
    eventHash: string
  )

  // JSON and SHA-256, given from outside: canonical encoding, decoding, and the
  // digest of an event whose own hash is blank. File names are zero-padded to
  // `digits` places, NAME_DIGITS in the program.
  datatype Codec = Codec(
    encode: AuditEvent -> string,
    decode: string -> Option<AuditEvent>,
    hash: AuditEvent -> Digest,
    digits: nat
  )

  // What the decoder accepts back.
  predicate WellFormed(e: AuditEvent) {
    && e.sequence > 0
    && e.eventType != ""
    && e.correlationId != ""
    && (e.previousHash.Some? ==> IsDigest(e.previousHash.value))
    && IsDigest(e.eventHash)
  }

  ghost predicate RoundTrips(codec: Codec) {
    forall e | WellFormed(e) :: codec.decode(codec.encode(e)) == Some(e)
  }

  const MAX_EVENT_BYTES: nat := 1024 * 1024
  const NAME_DIGITS: nat := 20

  // f"{sequence:020d}.json"
  function EventName(codec: Codec, n: nat): string {
    (if n < Pow10(codec.digits) then Fixed(n, codec.digits) else Decimal(n)) + ".json"
  }

  // glob "[0-9]" * 20 + ".json"
  predicate IsEventName(codec: Codec, name: string) {
    && |name| == codec.digits + 5
    && name[codec.digits..] == ".json"
    && forall i | 0 <= i < codec.digits :: IsDigitChar(name[i])
  }

  type Files = map<string, string>

  const HEAD: string := "HEAD"

  function HashText(h: Option<string>): string {
    match h
    case None => "None"
    case Some(text) => text
  }

  // f"{len(events)} {previous_hash}\n"
  function HeadText(n: nat, h: Option<string>): string {
    Decimal(n) + " " + HashText(h) + "\n"
  }

  function LastHash(events: seq<AuditEvent>): Option<string> {
    if events == [] then None else Some(events[|events| - 1].eventHash)
  }

  const INVALID: Error := AdapterError("invalid_audit_log")

  // The check of one file against the chain so far.
  function ReadOne(codec: Codec, files: Files, name: string, before: seq<AuditEvent>): Option<AuditEvent>
    requires name in files
  {
    if |files[name]| > MAX_EVENT_BYTES then None
    else
      match codec.decode(files[name])
      case None => None
      case Some(event) =>
        if && event.sequence == |before| + 1
           && name == EventName(codec, |before| + 1)
           && event.previousHash == LastHash(before)
           && event.eventHash == codec.hash(event.(eventHash := ""))
           && files[name] == codec.encode(event)
        then Some(event) else None
  }

  function ReadChain(codec: Codec, files: Files, names: seq<string>): Option<seq<AuditEvent>>
    requires Elements(names) <= files.Keys
  {
    if names == [] then Some([])
    else
      var last := names[|names| - 1];
      assert last in Elements(names);
      match ReadChain(codec, files, names[..|names| - 1])
      case None => None
      case Some(before) =>
        match ReadOne(codec, files, last, before)
        case None => None
        case Some(event) => Some(before + [event])
  }

  // `read_all`, given the sorted names of the event files.
  function ReadLog(codec: Codec, files: Files, names: seq<string>): Outcome<seq<AuditEvent>>
    requires Elements(names) <= files.Keys
  {
    match ReadChain(codec, files, names)
    case None => Raised(INVALID)
    case Some(events) =>
      if events == [] && HEAD !in files then Ok([])
      else if HEAD !in files then Raised(INVALID)
      else if files[HEAD] != HeadText(|events|, LastHash(events)) then Raised(INVALID)
      else Ok(events)
  }

  ghost predicate SortedNames(codec: Codec, files: Files, names: seq<string>) {
    && Strict(names, LexLess)
    && forall name :: name in names <==> name in files && IsEventName(codec, name)
  }

  // ---- What an accepted directory is, without reading order or sorting ----

  ghost predicate LinkedAt(codec: Codec, events: seq<AuditEvent>, i: nat)
    requires i < |events|
  {
    && events[i].sequence == i + 1
    && events[i].previousHash == (if i == 0 then None else Some(events[i - 1].eventHash))
    && events[i].eventHash == codec.hash(events[i].(eventHash := ""))
  }

  ghost predicate Linked(codec: Codec, events: seq<AuditEvent>) {
    forall i | 0 <= i < |events| :: LinkedAt(codec, events, i)
  }

  ghost predicate StoresEvent(codec: Codec, files: Files, name: string, event: AuditEvent) {
    && name in files
    && files[name] == codec.encode(event)
    && codec.decode(files[name]) == Some(event)
    && |files[name]| <= MAX_EVENT_BYTES
  }

  ghost predicate KeepsEvent(codec: Codec, files: Files, n: nat, event: AuditEvent) {
    IsEventName(codec, EventName(codec, n)) && StoresEvent(codec, files, EventName(codec, n), event)
  }

  // The names of the first `n` event files.
  function EventNames(codec: Codec, n: nat): seq<string> {
    seq(n, i requires 0 <= i => EventName(codec, i + 1))
  }

  ghost predicate IsLog(codec: Codec, files: Files, events: seq<AuditEvent>) {
    && Linked(codec, events)
    && (forall i | 0 <= i < |events| :: KeepsEvent(codec, files, i + 1, events[i]))
    && (forall name | name in files && IsEventName(codec, name) :: name in EventNames(codec, |events|))
    && (if HEAD in files then files[HEAD] == HeadText(|events|, LastHash(events)) else events == [])
  }

  lemma EventNameShape(codec: Codec, n: nat)
    ensures n < Pow10(codec.digits) <==> IsEventName(codec, EventName(codec, n))
  {
    if n >= Pow10(codec.digits) {
      DecimalLength(n, codec.digits);
    } else {
      assert EventName(codec, n)[codec.digits..] == ".json";
      assert forall i | 0 <= i < codec.digits :: EventName(codec, n)[i] == Fixed(n, codec.digits)[i];
    }
  }

  lemma EventNamesSorted(codec: Codec, a: nat, b: nat)
    requires a < b < Pow10(codec.digits)
    ensures LexLess(EventName(codec, a), EventName(codec, b)) && EventName(codec, a) != EventName(codec, b)
  {
    FixedMonotone(a, b, codec.digits);
    LexAppend(Fixed(a, codec.digits), Fixed(b, codec.digits), ".json", ".json");
    LexOrder(EventName(codec, a), EventName(codec, b));
  }

  lemma LinkedExtend(codec: Codec, before: seq<AuditEvent>, event: AuditEvent)
    requires Linked(codec, before)
    requires event.sequence == |before| + 1 && event.previousHash == LastHash(before)
    requires event.eventHash == codec.hash(event.(eventHash := ""))
    ensures Linked(codec, before + [event])
  {
    var events := before + [event];
    forall i | 0 <= i < |events| ensures LinkedAt(codec, events, i) {
      if i < |before| { assert LinkedAt(codec, before, i); }
    }
  }

  lemma LinkedPrefix(codec: Codec, events: seq<AuditEvent>, n: nat)
    requires Linked(codec, events) && n <= |events|
    ensures Linked(codec, events[..n])
  {
    forall i | 0 <= i < n ensures LinkedAt(codec, events[..n], i) {
      assert LinkedAt(codec, events, i);
    }
  }

  // The event files `names` hold `events`, in order.
  ghost predicate Holds(codec: Codec, files: Files, names: seq<string>, events: seq<AuditEvent>) {
    && |names| == |events|
    && Linked(codec, events)
    && forall i | 0 <= i < |names| ::
       names[i] == EventName(codec, i + 1) && StoresEvent(codec, files, names[i], events[i])
  }

  lemma {:induction false} ReadChainFacts(codec: Codec, files: Files, names: seq<string>)
    requires Elements(names) <= files.Keys
    requires ReadChain(codec, files, names).Some?
    ensures Holds(codec, files, names, ReadChain(codec, files, names).value)
  {
    if names != [] {
      var init, last := names[..|names| - 1], names[|names| - 1];
      assert last in Elements(names);
      ReadChainFacts(codec, files, init);
      var before := ReadChain(codec, files, init).value;
      var event := ReadOne(codec, files, last, before).value;
      LinkedExtend(codec, before, event);
      assert StoresEvent(codec, files, last, event);
    }
  }

  lemma {:induction false} ReadChainSucceeds(codec: Codec, files: Files, names: seq<string>, events: seq<AuditEvent>)
    requires Elements(names) <= files.Keys && Holds(codec, files, names, events)
    ensures ReadChain(codec, files, names) == Some(events)
  {
    if names != [] {
      var n := |names| - 1;
      assert Elements(names[..n]) <= Elements(names);
      LinkedPrefix(codec, events, n);
      ReadChainSucceeds(codec, files, names[..n], events[..n]);
      assert StoresEvent(codec, files, names[n], events[n]) && LinkedAt(codec, events, n);
      assert ReadOne(codec, files, names[n], events[..n]) == Some(events[n]);
      assert events == events[..n] + [events[n]];
    }
  }

  lemma EventNamesStrict(codec: Codec, n: nat)
    requires n < Pow10(codec.digits)
    ensures Strict(EventNames(codec, n), LexLess)
  {
    var names := EventNames(codec, n);
    forall i, j | 0 <= i < j < n ensures LexLess(names[i], names[j]) {
      EventNamesSorted(codec, i + 1, j + 1);
    }
  }

  lemma LogFits(codec: Codec, files: Files, events: seq<AuditEvent>)
    requires IsLog(codec, files, events)
    ensures |events| < Pow10(codec.digits)
  {
    Pow10Positive(codec.digits);
    EventNameShape(codec, |events|);
    if |events| > 0 {
      assert KeepsEvent(codec, files, |events|, events[|events| - 1]);
    }
  }

  lemma LogHasNames(codec: Codec, files: Files, names: seq<string>, events: seq<AuditEvent>, name: string)
    requires SortedNames(codec, files, names) && IsLog(codec, files, events)
    requires name in EventNames(codec, |events|)
    ensures name in names
  {
    var i :| 0 <= i < |events| && EventNames(codec, |events|)[i] == name;
    assert KeepsEvent(codec, files, i + 1, events[i]);
  }

  lemma LogNamesAreSorted(codec: Codec, files: Files, names: seq<string>, events: seq<AuditEvent>)
    requires SortedNames(codec, files, names) && IsLog(codec, files, events)
    ensures names == EventNames(codec, |events|)
  {
    var expected := EventNames(codec, |events|);
    LogFits(codec, files, events);
    EventNamesStrict(codec, |events|);
    forall name | name in expected ensures name in names {
      LogHasNames(codec, files, names, events, name);
    }
    LexAsymmetric();
    StrictListingUnique(names, expected, LexLess);
  }

  lemma AcceptedIsLog(codec: Codec, files: Files, names: seq<string>, events: seq<AuditEvent>)
    requires SortedNames(codec, files, names)
    requires ReadLog(codec, files, names) == Ok(events)
    ensures IsLog(codec, files, events)
  {
    ReadChainFacts(codec, files, names);
    HeldIsLog(codec, files, names, events);
  }

  lemma HeldIsLog(codec: Codec, files: Files, names: seq<string>, events: seq<AuditEvent>)
    requires SortedNames(codec, files, names) && Holds(codec, files, names, events)
    requires if HEAD in files then files[HEAD] == HeadText(|events|, LastHash(events)) else events == []
    ensures IsLog(codec, files, events)
  {
    assert names == EventNames(codec, |events|);
    forall i | 0 <= i < |events| ensures KeepsEvent(codec, files, i + 1, events[i]) {
      assert names[i] in names;
      assert StoresEvent(codec, files, names[i], events[i]);
    }
  }

  // `read_all` accepts exactly the directories that are a log, and returns it.
  lemma ReadLogExact(codec: Codec, files: Files, names: seq<string>, events: seq<AuditEvent>)
    requires SortedNames(codec, files, names)
    ensures ReadLog(codec, files, names) == Ok(events) <==> IsLog(codec, files, events)
  {
    if ReadLog(codec, files, names) == Ok(events) {
      AcceptedIsLog(codec, files, names, events);
    }
    if IsLog(codec, files, events) {
      LogIsHeld(codec, files, names, events);
      ReadChainSucceeds(codec, files, names, events);
    }
  }

  lemma LogIsHeld(codec: Codec, files: Files, names: seq<string>, events: seq<AuditEvent>)
    requires SortedNames(codec, files, names) && IsLog(codec, files, events)
    ensures Holds(codec, files, names, events)
  {
    LogNamesAreSorted(codec, files, names, events);
    forall i | 0 <= i < |names|
      ensures names[i] == EventName(codec, i + 1) && StoresEvent(codec, files, names[i], events[i])
    {
      assert KeepsEvent(codec, files, i + 1, events[i]);
    }
  }

  // ---- HEAD determines the whole log ----

  lemma HashTextInjective(h: Option<string>, g: Option<string>)
    requires h.Some? ==> IsDigest(h.value)
    requires g.Some? ==> IsDigest(g.value)
    requires HashText(h) + "\n" == HashText(g) + "\n"
    ensures h == g
  {
    assert HashText(h) == (HashText(h) + "\n")[..|HashText(h)|];
    assert HashText(g) == (HashText(g) + "\n")[..|HashText(g)|];
    assert |"None"| == 4 && (h.Some? ==> |h.value| == 64) && (g.Some? ==> |g.value| == 64);
  }

  lemma HeadTextInjective(n: nat, h: Option<string>, m: nat, g: Option<string>)
    requires h.Some? ==> IsDigest(h.value)
    requires g.Some? ==> IsDigest(g.value)
    requires HeadText(n, h) == HeadText(m, g)
    ensures n == m && h == g
  {
    var restH, restG := HashText(h) + "\n", HashText(g) + "\n";
    assert HeadText(n, h) == Decimal(n) + (" " + restH);
    assert HeadText(m, g) == Decimal(m) + (" " + restG);
    FirstSpace(Decimal(n), restH, Decimal(m), restG);
    DecimalInjective(n, m);
    HashTextInjective(h, g);
  }

  lemma ShorterNumeralDiffers(a: string, x: string, b: string, y: string)
    requires |a| < |b| && forall i | 0 <= i < |b| :: IsDigitChar(b[i])
    ensures a + (" " + x) != b + (" " + y)
  {
    assert (a + (" " + x))[|a|] == ' ';
    assert (b + (" " + y))[|a|] == b[|a|];
  }

  // A text of digits, a space and anything else splits in only one way.
  lemma FirstSpace(a: string, x: string, b: string, y: string)
    requires forall i | 0 <= i < |a| :: IsDigitChar(a[i])
    requires forall i | 0 <= i < |b| :: IsDigitChar(b[i])
    ensures a + (" " + x) == b + (" " + y) ==> a == b && x == y
  {
    var s, t := a + (" " + x), b + (" " + y);
    if |a| < |b| {
      ShorterNumeralDiffers(a, x, b, y);
    } else if |b| < |a| {
      ShorterNumeralDiffers(b, y, a, x);
    } else {
      assert a == s[..|a|] && b == t[..|b|];
      assert x == s[|a| + 1..] && y == t[|b| + 1..];
    }
  }

  // Walking the chain backwards from the same last hash: the same events, or
  // two different events with the same digest.
  lemma {:induction false} SameLastHashSameEvents(codec: Codec, a: seq<AuditEvent>, b: seq<AuditEvent>)
    returns (x: AuditEvent, y: AuditEvent)
    requires Linked(codec, a) && Linked(codec, b) && |a| == |b|
    requires LastHash(a) == LastHash(b)
    ensures a == b || (x != y && codec.hash(x) == codec.hash(y))
  {
    if a == [] {
      x, y := *, *;
    } else {
      var n := |a| - 1;
      assert LinkedAt(codec, a, n) && LinkedAt(codec, b, n);
      x, y := a[n].(eventHash := ""), b[n].(eventHash := "");
      if x == y {
        SameBodySameEvent(codec, a, b);
        LinkedPrefix(codec, a, n);
        LinkedPrefix(codec, b, n);
        x, y := SameLastHashSameEvents(codec, a[..n], b[..n]);
        assert a == a[..n] + [a[n]] && b == b[..n] + [b[n]];
      }
    }
  }

  lemma SameBodySameEvent(codec: Codec, a: seq<AuditEvent>, b: seq<AuditEvent>)
    requires Linked(codec, a) && Linked(codec, b) && |a| == |b| > 0
    requires LastHash(a) == LastHash(b)
    requires a[|a| - 1].(eventHash := "") == b[|b| - 1].(eventHash := "")
    ensures a[|a| - 1] == b[|b| - 1]
    ensures LastHash(a[..|a| - 1]) == LastHash(b[..|b| - 1])
  {
    var n := |a| - 1;
    var p, q := a[n], b[n];
    assert LinkedAt(codec, a, n) && LinkedAt(codec, b, n);
    assert p.(eventHash := "").previousHash == q.(eventHash := "").previousHash;
    assert p == p.(eventHash := "").(eventHash := p.eventHash);
  }

  lemma LogFilesAreShared(codec: Codec, p: Files, q: Files, events: seq<AuditEvent>, name: string)
    requires IsLog(codec, p, events) && IsLog(codec, q, events)
    requires IsEventName(codec, name) && name in p
    ensures name in q && q[name] == p[name]
  {
    var i :| 0 <= i < |events| && name == EventNames(codec, |events|)[i];
    assert KeepsEvent(codec, p, i + 1, events[i]) && KeepsEvent(codec, q, i + 1, events[i]);
  }

  // Two accepted directories with the same HEAD hold the same events and the
  // same event bytes, or exhibit a collision of the digest.
  lemma HeadDeterminesLog(codec: Codec, p: Files, q: Files, a: seq<AuditEvent>, b: seq<AuditEvent>)
    returns (x: AuditEvent, y: AuditEvent)
    requires IsLog(codec, p, a) && IsLog(codec, q, b)
    requires HEAD in p && HEAD in q && p[HEAD] == q[HEAD]
    ensures || (a == b && forall name | IsEventName(codec, name) ::
                            (name in p <==> name in q) && (name in p ==> p[name] == q[name]))
            || (x != y && codec.hash(x) == codec.hash(y))
  {
    LastHashIsDigest(codec, a);
    LastHashIsDigest(codec, b);
    HeadTextInjective(|a|, LastHash(a), |b|, LastHash(b));
    x, y := SameLastHashSameEvents(codec, a, b);
    if a == b {
      forall name | IsEventName(codec, name)
        ensures (name in p <==> name in q) && (name in p ==> p[name] == q[name])
      {
        if name in p { LogFilesAreShared(codec, p, q, a, name); }
        if name in q { LogFilesAreShared(codec, q, p, a, name); }
      }
    }
  }

  lemma LastHashIsDigest(codec: Codec, events: seq<AuditEvent>)
    requires Linked(codec, events)
    ensures LastHash(events).Some? ==> IsDigest(LastHash(events).value)
  {
    if events != [] {
      assert LinkedAt(codec, events, |events| - 1);
    }
  }

  // ---- Appending, and being interrupted while appending ----

  datatype Draft = Draft(eventType: string, correlationId: string, fields: seq<(string, Scalar)>, createdAt: int)

  // `not event_type.strip() or not correlation_id.strip()`
  predicate Acceptable(draft: Draft) {
    !Blank(draft.eventType) && !Blank(draft.correlationId)
  }

  function NewEvent(codec: Codec, existing: seq<AuditEvent>, draft: Draft): AuditEvent {
    var blank := AuditEvent(|existing| + 1, draft.eventType, draft.correlationId, draft.fields, draft.createdAt,
                            LastHash(existing), "");
    blank.(eventHash := codec.hash(blank))
  }

  // Where an append stopped: before the event was written, before HEAD was
  // replaced, after HEAD was replaced but before that was durable (the append
  // raises), or not at all.
  datatype Stop = BeforeEvent | BeforeHead | BeforeSync | Finished

  // HEAD was replaced, whatever the append then reported.
  predicate Lands(stop: Stop) {
    stop.BeforeSync? || stop.Finished?
  }

  // The directory after as many of the two atomic writes as were made.
  function Written(codec: Codec, files: Files, existing: seq<AuditEvent>, draft: Draft, stop: Stop): Files {
    var event := NewEvent(codec, existing, draft);
    var n := |existing| + 1;
    if stop.BeforeEvent? then files
    else if stop.BeforeHead? then files[EventName(codec, n) := codec.encode(event)]
    else files[EventName(codec, n) := codec.encode(event)][HEAD := HeadText(n, Some(event.eventHash))]
  }

  // The next event fits the log: its number has a name the reader looks for,
  // and its encoding is within the reader's size limit.
  predicate Fits(codec: Codec, existing: seq<AuditEvent>, draft: Draft) {
    && |existing| + 1 < Pow10(codec.digits)
    && |codec.encode(NewEvent(codec, existing, draft))| <= MAX_EVENT_BYTES
  }

  lemma NewEventIsWellFormed(codec: Codec, existing: seq<AuditEvent>, draft: Draft)
    requires Linked(codec, existing) && Acceptable(draft)
    ensures WellFormed(NewEvent(codec, existing, draft))
    ensures Linked(codec, existing + [NewEvent(codec, existing, draft)])
  {
    LastHashIsDigest(codec, existing);
    var event := NewEvent(codec, existing, draft);
    assert event.(eventHash := "") == AuditEvent(|existing| + 1, draft.eventType, draft.correlationId, draft.fields,
                                                 draft.createdAt, LastHash(existing), "");
    LinkedExtend(codec, existing, event);
  }

  lemma HeadIsNoEventName(codec: Codec, n: nat)
    ensures EventName(codec, n) != HEAD && !IsEventName(codec, HEAD)
  {
    var name := EventName(codec, n);
    assert name[|name| - 1] == 'n' && HEAD[|HEAD| - 1] == 'D';
  }

  lemma EventNameInjective(codec: Codec, a: nat, b: nat)
    requires a < Pow10(codec.digits) && b < Pow10(codec.digits) && EventName(codec, a) == EventName(codec, b)
    ensures a == b
  {
    if a < b {
      EventNamesSorted(codec, a, b);
    } else if b < a {
      EventNamesSorted(codec, b, a);
    }
  }

  // A log has exactly the event files 1..n, and HEAD says n.
  lemma LogLength(codec: Codec, files: Files, events: seq<AuditEvent>, n: nat, h: Option<string>)
    requires IsLog(codec, files, events)
    requires HEAD in files && files[HEAD] == HeadText(n, h) && (h.Some? ==> IsDigest(h.value))
    ensures |events| == n
  {
    LastHashIsDigest(codec, events);
    HeadTextInjective(|events|, LastHash(events), n, h);
  }

  lemma LogKeepsLast(codec: Codec, files: Files, events: seq<AuditEvent>, n: nat, h: Option<string>)
    requires IsLog(codec, files, events) && n > 0
    requires HEAD in files && files[HEAD] == HeadText(n, h) && (h.Some? ==> IsDigest(h.value))
    ensures |events| == n && KeepsEvent(codec, files, n, events[n - 1])
  {
    LogLength(codec, files, events, n, h);
    assert KeepsEvent(codec, files, n - 1 + 1, events[n - 1]);
  }

  // A directory is the log of at most one sequence of events.
  lemma LogIsUnique(codec: Codec, files: Files, a: seq<AuditEvent>, b: seq<AuditEvent>)
    requires IsLog(codec, files, a) && IsLog(codec, files, b)
    ensures a == b
  {
    if HEAD in files {
      LastHashIsDigest(codec, a);
      LogLength(codec, files, b, |a|, LastHash(a));
      forall i | 0 <= i < |a| ensures a[i] == b[i] {
        assert KeepsEvent(codec, files, i + 1, a[i]) && KeepsEvent(codec, files, i + 1, b[i]);
      }
    }
  }

  // The earlier events stay where they were.
  lemma EarlierEventsStay(codec: Codec, files: Files, existing: seq<AuditEvent>, draft: Draft, i: nat)
    requires IsLog(codec, files, existing) && i < |existing| && |existing| + 1 < Pow10(codec.digits)
    ensures KeepsEvent(codec, Written(codec, files, existing, draft, Finished), i + 1, existing[i])
  {
    assert KeepsEvent(codec, files, i + 1, existing[i]);
    EarlierFilesStay(codec, files, existing, draft, i + 1);
    SameFileKeepsEvent(codec, files, Written(codec, files, existing, draft, Finished), i + 1, existing[i]);
  }

  lemma EarlierFilesStay(codec: Codec, files: Files, existing: seq<AuditEvent>, draft: Draft, n: nat)
    requires n <= |existing| && |existing| + 1 < Pow10(codec.digits) && EventName(codec, n) in files
    ensures var after := Written(codec, files, existing, draft, Finished);
            EventName(codec, n) in after && after[EventName(codec, n)] == files[EventName(codec, n)]
  {
    HeadIsNoEventName(codec, n);
    EventNamesSorted(codec, n, |existing| + 1);
  }

  lemma SameFileKeepsEvent(codec: Codec, files: Files, after: Files, n: nat, event: AuditEvent)
    requires KeepsEvent(codec, files, n, event) && EventName(codec, n) in files && EventName(codec, n) in after
    requires after[EventName(codec, n)] == files[EventName(codec, n)]
    ensures KeepsEvent(codec, after, n, event)
  {
  }

  lemma NewEventIsKept(codec: Codec, files: Files, existing: seq<AuditEvent>, draft: Draft)
    requires RoundTrips(codec) && Acceptable(draft) && Linked(codec, existing) && Fits(codec, existing, draft)
    ensures KeepsEvent(codec, Written(codec, files, existing, draft, Finished), |existing| + 1,
                       NewEvent(codec, existing, draft))
  {
    NewEventIsWellFormed(codec, existing, draft);
    HeadIsNoEventName(codec, |existing| + 1);
    EventNameShape(codec, |existing| + 1);
  }

  lemma OnlyOneNewName(codec: Codec, files: Files, existing: seq<AuditEvent>, draft: Draft, name: string)
    requires IsLog(codec, files, existing)
    requires name in Written(codec, files, existing, draft, Finished) && IsEventName(codec, name)
    ensures name in EventNames(codec, |existing| + 1)
  {
    var n := |existing| + 1;
    assert EventNames(codec, n) == EventNames(codec, n - 1) + [EventName(codec, n)];
    HeadIsNoEventName(codec, n);
    if name != EventName(codec, n) {
      assert name in files;
    }
  }

  // A finished append is read back as the old events and the new one.
  lemma AppendReadsBack(codec: Codec, files: Files, existing: seq<AuditEvent>, draft: Draft)
    requires RoundTrips(codec) && Acceptable(draft) && IsLog(codec, files, existing)
    requires Fits(codec, existing, draft)
    ensures IsLog(codec, Written(codec, files, existing, draft, Finished),
                  existing + [NewEvent(codec, existing, draft)])
  {
    var event := NewEvent(codec, existing, draft);
    var after, events := Written(codec, files, existing, draft, Finished), existing + [event];
    NewEventIsWellFormed(codec, existing, draft);
    forall i | 0 <= i < |events| ensures KeepsEvent(codec, after, i + 1, events[i]) {
      if i < |existing| {
        EarlierEventsStay(codec, files, existing, draft, i);
      } else {
        NewEventIsKept(codec, files, existing, draft);
      }
    }
    forall name | name in after && IsEventName(codec, name) ensures name in EventNames(codec, |events|) {
      OnlyOneNewName(codec, files, existing, draft, name);
    }
  }

  // An append that does not fit finishes with a directory no reader accepts.
  lemma MisfitBreaksLog(codec: Codec, files: Files, existing: seq<AuditEvent>, draft: Draft, events: seq<AuditEvent>)
    requires Acceptable(draft) && IsLog(codec, files, existing) && !Fits(codec, existing, draft)
    ensures !IsLog(codec, Written(codec, files, existing, draft, Finished), events)
  {
    var event, n := NewEvent(codec, existing, draft), |existing| + 1;
    var after := Written(codec, files, existing, draft, Finished);
    HeadIsNoEventName(codec, n);
    EventNameShape(codec, n);
    if IsLog(codec, after, events) {
      LogKeepsLast(codec, after, events, n, Some(event.eventHash));
      assert false;
    }
  }

  // An append stopped between its two writes leaves a directory that no reader
  // accepts, while event names last.
  lemma HalfAppendBreaksLog(
    codec: Codec, files: Files, existing: seq<AuditEvent>, draft: Draft, events: seq<AuditEvent>
  )
    requires IsLog(codec, files, existing) && |existing| + 1 < Pow10(codec.digits)
    ensures !IsLog(codec, Written(codec, files, existing, draft, BeforeHead), events)
  {
    var n := |existing| + 1;
    var after := Written(codec, files, existing, draft, BeforeHead);
    HeadIsNoEventName(codec, n);
    EventNameShape(codec, n);
    if IsLog(codec, after, events) {
      ReachesEvent(codec, after, events, n);
      LastHashIsDigest(codec, existing);
      if HEAD in files {
        LogLength(codec, after, events, n - 1, LastHash(existing));
      }
      assert false;
    }
  }

  lemma SameNumber(codec: Codec, a: nat, b: nat)
    requires EventName(codec, a) == EventName(codec, b) && IsEventName(codec, EventName(codec, b))
    ensures a == b
  {
    EventNameShape(codec, a);
    EventNameShape(codec, b);
    EventNameInjective(codec, a, b);
  }

  // A log holding the `n`-th event file is at least that long.
  lemma ReachesEvent(codec: Codec, files: Files, events: seq<AuditEvent>, n: nat)
    requires IsLog(codec, files, events) && n < Pow10(codec.digits)
    requires EventName(codec, n) in files && IsEventName(codec, EventName(codec, n))
    ensures n <= |events|
  {
    assert EventName(codec, n) in EventNames(codec, |events|);
    var i :| 0 <= i < |events| && EventNames(codec, |events|)[i] == EventName(codec, n);
    SameNumber(codec, i + 1, n);
  }

  // Beyond the last event name the stray file is not even looked at.
  lemma UnnamedEventIsIgnored(codec: Codec, files: Files, existing: seq<AuditEvent>, draft: Draft)
    requires IsLog(codec, files, existing) && |existing| + 1 >= Pow10(codec.digits)
    ensures IsLog(codec, Written(codec, files, existing, draft, BeforeHead), existing)
  {
    var n := |existing| + 1;
    var after := Written(codec, files, existing, draft, BeforeHead);
    HeadIsNoEventName(codec, n);
    EventNameShape(codec, n);
    forall i | 0 <= i < |existing| ensures KeepsEvent(codec, after, i + 1, existing[i]) {
      assert KeepsEvent(codec, files, i + 1, existing[i]);
    }
  }

  // Wherever an append stops, what a reader accepts afterwards is the old log
  // or the old log and the new event, never anything else; and once HEAD was
  // replaced it is accepted exactly when the event fits.
  lemma AppendIsAtomicToReaders(
    codec: Codec, files: Files, existing: seq<AuditEvent>, draft: Draft, stop: Stop, events: seq<AuditEvent>
  )
    requires RoundTrips(codec) && Acceptable(draft) && IsLog(codec, files, existing)
    ensures IsLog(codec, Written(codec, files, existing, draft, stop), events)
            <==> match stop
                 case BeforeEvent => events == existing
                 case BeforeHead => events == existing && |existing| + 1 >= Pow10(codec.digits)
                 case _ => events == existing + [NewEvent(codec, existing, draft)] && Fits(codec, existing, draft)
  {
    var after := Written(codec, files, existing, draft, stop);
    match stop {
      case BeforeEvent =>
      case BeforeHead =>
        if |existing| + 1 < Pow10(codec.digits) {
          HalfAppendBreaksLog(codec, files, existing, draft, events);
        } else {
          UnnamedEventIsIgnored(codec, files, existing, draft);
        }
      case _ =>
        assert after == Written(codec, files, existing, draft, Finished);
        if Fits(codec, existing, draft) {
          AppendReadsBack(codec, files, existing, draft);
        } else {
          MisfitBreaksLog(codec, files, existing, draft, events);
        }
    }
    OnlyOneLog(codec, after, events);
  }

  lemma OnlyOneLog(codec: Codec, files: Files, events: seq<AuditEvent>)
    ensures forall other | IsLog(codec, files, events) && IsLog(codec, files, other) :: other == events
  {
    forall other | IsLog(codec, files, events) && IsLog(codec, files, other) ensures other == events {
      LogIsUnique(codec, files, events, other);
    }
  }

  // ---- Whole runs ----

  // An event whose append replaced HEAD, and whether that append then returned.
  datatype Landed = Landed(event: AuditEvent, returned: bool)

  datatype Journal = Journal(files: Files, landed: seq<Landed>)

  function Events(landed: seq<Landed>): seq<AuditEvent> {
    seq(|landed|, i requires 0 <= i < |landed| => landed[i].event)
  }

  // One call of `append`, stopped or not; it refuses blank names and any
  // directory it cannot read.
  ghost predicate Appends(codec: Codec, a: Journal, b: Journal, existing: seq<AuditEvent>, draft: Draft, stop: Stop) {
    && Acceptable(draft)
    && IsLog(codec, a.files, existing)
    && b.files == Written(codec, a.files, existing, draft, stop)
    && b.landed == if Lands(stop) then a.landed + [Landed(NewEvent(codec, existing, draft), stop.Finished?)]
                   else a.landed
  }

  ghost predicate Moves(codec: Codec, a: Journal, b: Journal) {
    b == a || exists existing, draft, stop :: Appends(codec, a, b, existing, draft, stop)
  }

  // Whatever a reader accepts is exactly what landed, in order: every event whose
  // append returned, and those whose append only failed to make HEAD durable.
  ghost predicate Faithful(codec: Codec, j: Journal) {
    forall events | IsLog(codec, j.files, events) :: events == Events(j.landed)
  }

  lemma MoveIsFaithful(codec: Codec, a: Journal, b: Journal)
    requires RoundTrips(codec) && Faithful(codec, a) && Moves(codec, a, b)
    ensures Faithful(codec, b)
  {
    if b != a {
      var existing, draft, stop :| Appends(codec, a, b, existing, draft, stop);
      if Lands(stop) {
        assert Events(b.landed) == Events(a.landed) + [NewEvent(codec, existing, draft)];
      }
      forall events | IsLog(codec, b.files, events) ensures events == Events(b.landed) {
        AppendIsAtomicToReaders(codec, a.files, existing, draft, stop, events);
      }
    }
  }

  lemma EveryRunIsFaithful(codec: Codec, states: seq<Journal>)
    requires RoundTrips(codec)
    requires Run(states, (a, b) => Moves(codec, a, b)) && states[0] == Journal(map[], [])
    ensures forall i | 0 <= i < |states| :: Faithful(codec, states[i])
  {
    var moves, faithful := (a, b) => Moves(codec, a, b), (j: Journal) => Faithful(codec, j);
    assert Run(states, moves) by {
      forall i | 0 <= i < |states| - 1 ensures moves(states[i], states[i + 1]) {}
    }
    forall a, b | faithful(a) && moves(a, b) ensures faithful(b) {
      MoveIsFaithful(codec, a, b);
    }
    assert faithful(states[0]) by {
      forall events | IsLog(codec, map[], events) ensures events == [] {}
    }
    HoldsAlongRun(states, moves, faithful);
    forall i | 0 <= i < |states| ensures Faithful(codec, states[i]) {
      assert faithful(states[i]);
    }
  }

  // The journal can be read, and shows what landed.
  ghost predicate Readable(codec: Codec, j: Journal) {
    IsLog(codec, j.files, Events(j.landed))
  }

  // The append fits and does not stop between its two writes, while event names
  // last.
  predicate Clean(codec: Codec, existing: seq<AuditEvent>, draft: Draft, stop: Stop) {
    match stop
    case BeforeEvent => true
    case BeforeHead => |existing| + 1 >= Pow10(codec.digits)
    case _ => Fits(codec, existing, draft)
  }

  ghost predicate MovesCleanly(codec: Codec, a: Journal, b: Journal) {
    b == a || exists existing, draft, stop ::
                Appends(codec, a, b, existing, draft, stop) && Clean(codec, existing, draft, stop)
  }

  lemma AppendStaysReadableIff(
    codec: Codec, a: Journal, b: Journal, existing: seq<AuditEvent>, draft: Draft, stop: Stop
  )
    requires RoundTrips(codec) && Readable(codec, a) && Appends(codec, a, b, existing, draft, stop)
    ensures Readable(codec, b) <==> Clean(codec, existing, draft, stop)
  {
    LogIsUnique(codec, a.files, existing, Events(a.landed));
    if Lands(stop) {
      assert Events(b.landed) == Events(a.landed) + [NewEvent(codec, existing, draft)];
    }
    AppendIsAtomicToReaders(codec, a.files, existing, draft, stop, Events(b.landed));
  }

  // Nothing is appended to a journal that cannot be read.
  lemma MoveStaysReadableIff(codec: Codec, a: Journal, b: Journal)
    requires RoundTrips(codec) && Faithful(codec, a) && Moves(codec, a, b)
    ensures Readable(codec, b) <==> Readable(codec, a) && MovesCleanly(codec, a, b)
  {
    if b != a {
      var existing, draft, stop :| Appends(codec, a, b, existing, draft, stop);
      assert Readable(codec, a);
      AppendStaysReadableIff(codec, a, b, existing, draft, stop);
      if MovesCleanly(codec, a, b) {
        var existing', draft', stop' :|
          Appends(codec, a, b, existing', draft', stop') && Clean(codec, existing', draft', stop');
        AppendStaysReadableIff(codec, a, b, existing', draft', stop');
      }
    }
  }

  // In a run of appends the journal is readable, and shows exactly what landed,
  // as long as every append so far was clean, and never again after that.
  lemma EveryRunIsReadableIff(codec: Codec, states: seq<Journal>, n: nat)
    requires RoundTrips(codec)
    requires Run(states, (a, b) => Moves(codec, a, b)) && states[0] == Journal(map[], []) && n < |states|
    ensures Readable(codec, states[n]) <==> forall i | 0 <= i < n :: MovesCleanly(codec, states[i], states[i + 1])
  {
    EveryRunIsFaithful(codec, states);
    var moves := (a, b) => Moves(codec, a, b);
    var k := 0;
    while k < n
      invariant k <= n
      invariant Readable(codec, states[k]) <==> forall i | 0 <= i < k :: MovesCleanly(codec, states[i], states[i + 1])
    {
      assert moves(states[k], states[k + 1]) && Faithful(codec, states[k]);
      MoveStaysReadableIff(codec, states[k], states[k + 1]);
      k := k + 1;
    }
  }

  // ---- The class ----

  class LocalAuditLog {
    const codec: Codec
    var files: Files

    constructor (codec: Codec)
      requires codec.digits == NAME_DIGITS
      ensures this.codec == codec && files == map[]
    {
      this.codec := codec;
      files := map[];
    }

    // `sorted(root.glob(...))`
    method EventFiles() returns (names: seq<string>)
      ensures SortedNames(codec, files, names)
    {
      var pending := files.Keys;
      var found: seq<string> := [];
      while pending != {}
        invariant pending <= files.Keys && Distinct(found) && Elements(found) !! pending
        invariant forall name :: name in found <==> name in files && name !in pending && IsEventName(codec, name)
      {
        var name :| name in pending;
        pending := pending - {name};
        if IsEventName(codec, name) {
          assert name !in Elements(found);
          found := found + [name];
        }
      }
      names := Sort(found, LexLess);
      SortedAndDistinct(found);
      SameBag(names, found);
    }

    method ReadAll() returns (r: Outcome<seq<AuditEvent>>)
      ensures r.Ok? ==> IsLog(codec, files, r.value)
      ensures r.Raised? ==> forall events :: !IsLog(codec, files, events)
    {
      var names := EventFiles();
      var events: Option<seq<AuditEvent>> := Some([]);
      for i := 0 to |names|
        invariant Elements(names[..i]) <= files.Keys
        invariant events == ReadChain(codec, files, names[..i])
      {
        assert names[i] in names;
        assert names[..i + 1][..i] == names[..i];
        if events.Some? {
          var event := ReadOne(codec, files, names[i], events.value);
          events := if event.None? then None else Some(events.value + [event.value]);
        }
      }
      assert names[..|names|] == names;
      if events.None? {
        r := Raised(INVALID);
      } else if events.value == [] && HEAD !in files {
        r := Ok([]);
      } else if HEAD !in files || files[HEAD] != HeadText(|events.value|, LastHash(events.value)) {
        r := Raised(INVALID);
      } else {
        r := Ok(events.value);
      }
      forall other ensures ReadLog(codec, files, names) == Ok(other) <==> IsLog(codec, files, other) {
        ReadLogExact(codec, files, names, other);
      }
    }

    // Any stop is an exception or a crash after the writes made so far.
    method Append(draft: Draft, stop: Stop) returns (error: Option<Error>)
      modifies this
      ensures if Acceptable(draft) && exists events :: IsLog(codec, old(files), events)
              then
                && (error.None? <==> stop.Finished?)
                && exists existing :: IsLog(codec, old(files), existing)
                                      && files == Written(codec, old(files), existing, draft, stop)
              else error.Some? && files == old(files)
    {
      if !Acceptable(draft) {
        return Some(AdapterError("invalid_audit_event"));
      }
      var existing := ReadAll();
      if existing.Raised? {
        return Some(existing.error);
      }
      var event := NewEvent(codec, existing.value, draft);
      if stop == BeforeEvent {
        return Some(OsError);
      }
      files := files[EventName(codec, event.sequence) := codec.encode(event)];
      if stop == BeforeHead {
        return Some(OsError);
      }
      files := files[HEAD := HeadText(event.sequence, Some(event.eventHash))];
      error := if stop == BeforeSync then Some(OsError) else None;
    }
  }

  lemma SortedAndDistinct(names: seq<string>)
    requires Distinct(names)
    ensures Strict(Sort(names, LexLess), LexLess)
  {
    var sorted := Sort(names, LexLess);
    LexIsWeakOrder();
    SortOrdered(names, LexLess);
    SortDistinct(names, LexLess);
    forall i, j | 0 <= i < j < |sorted| ensures LexLess(sorted[i], sorted[j]) {
      LexOrder(sorted[i], sorted[j]);
    }
  }
}
