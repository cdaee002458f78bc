/**
 Pulling the encrypted event log. The hub is not trusted, so a pull degrades per event: what it
 cannot read yet holds back the rest of that device's stream, what it never can read is handed
 on for quarantine, and what must not be applied is skipped. The theorems say what gets through.
 */
module EncryptedPull {
  import opened Common

  type Device = nat

  type Key = nat

  const ENVELOPE_VERSION := 2

  // The envelope's unauthenticated key-id: none, not a digest at all, or the digest of a key.
  datatype Hint = NoHint | NoDigest | DigestOf(key: Key)

  // A grant carries a key once it is verified, addressed to this device and unwrapped. A sealed
  // event is intact when its carrier is the one it was sealed under.
  datatype Payload =
    | Grant(epoch: int, granted: Option<Key>)
    | RetiredV1
    | Plaintext
    | Malformed
    | Versioned(version: int)
    | Sealed(epoch: int, hint: Hint, key: Key, intact: bool)

  datatype Event = Event(device: Device, id: nat, payload: Payload)

  datatype Held = Held(epoch: int, key: Key)

  // Whether the grace of a missing key, or of a newer envelope version, has run out.
  datatype Grace = Grace(keyExpired: (int, Hint) -> bool, versionExpired: Event -> bool)

  // What a pull hands on: an event in plain, or its carrier for quarantine.
  datatype Delivery = Opened(e: Event) | Carrier(e: Event)

  datatype Stats = Stats(truncated: nat, skipped: nat, undecryptable: nat)

  datatype Verdict = Deliver | Quarantine | Skip | Defer

  // ---------- what a pull should do with one event ----------

  function Ingested(raw: seq<Event>, held: set<Held>): set<Held>
  {
    held + set e | e in raw && e.payload.Grant? && e.payload.granted.Some? ::
             Held(e.payload.epoch, e.payload.granted.value)
  }

  // The key-id hint plays no part: only the key and the carrier decide.
  predicate Readable(e: Event, held: set<Held>)
  {
    || e.payload.Grant?
    || (e.payload.Sealed? && e.payload.intact && Held(e.payload.epoch, e.payload.key) in held)
  }

  predicate HoldsEpoch(held: set<Held>, epoch: int)
  {
    exists h :: h in held && h.epoch == epoch
  }

  // Whether an event that cannot be read may become readable soon.
  predicate MayBecomeReadable(e: Event, held: set<Held>, g: Grace)
  {
    match e.payload
    case Versioned(version) => version > ENVELOPE_VERSION && !g.versionExpired(e)
    case Sealed(epoch, hint, _, _) =>
      if !HoldsEpoch(held, epoch) then !g.keyExpired(epoch, NoHint)
      else hint.DigestOf? && Held(epoch, hint.key) !in held && !g.keyExpired(epoch, hint)
    case _ => false
  }

  function Judged(e: Event, held: set<Held>, g: Grace): Verdict
  {
    if Readable(e, held) then Deliver
    else if MayBecomeReadable(e, held, g) then Defer
    else if e.payload.RetiredV1? || e.payload.Plaintext? then Skip
    else Quarantine
  }

  // What has run out stays run out.
  ghost predicate NoEarlier(later: Grace, g: Grace)
  {
    && (forall epoch, hint :: g.keyExpired(epoch, hint) ==> later.keyExpired(epoch, hint))
    && forall e :: g.versionExpired(e) ==> later.versionExpired(e)
  }

  // As graces run out, an event only ever moves from waiting to quarantine.
  lemma ExpiryOnlyQuarantines(e: Event, held: set<Held>, g: Grace, later: Grace)
    requires NoEarlier(later, g)
    ensures Judged(e, held, later) == Judged(e, held, g)
            || (Judged(e, held, g) == Defer && Judged(e, held, later) == Quarantine)
  {
  }

  // While every grace is open, an event waits exactly when an upgrade or a grant may still open it:
  // a newer envelope version, no key at the epoch, or a hint naming a key that is not held there.
  lemma OpenGraceWaits(e: Event, held: set<Held>, g: Grace)
    requires forall epoch, hint :: !g.keyExpired(epoch, hint)
    requires forall x :: !g.versionExpired(x)
    ensures Judged(e, held, g) == Defer <==>
            || (e.payload.Versioned? && e.payload.version > 2)
            || (e.payload.Sealed? && !Readable(e, held)
                && ((forall h :: h in held ==> h.epoch != e.payload.epoch)
                    || (e.payload.hint.DigestOf? && Held(e.payload.epoch, e.payload.hint.key) !in held)))
  {
  }

  // And once every grace has run out, nothing holds a stream back.
  lemma ClosedGraceNeverWaits(raw: seq<Event>, d: Device, held: set<Held>, g: Grace)
    requires forall epoch, hint :: g.keyExpired(epoch, hint)
    requires forall x :: g.versionExpired(x)
    ensures !HeldBack(raw, d, held, g)
  {
  }

  // ---------- what a pull should do with a batch ----------

  // An earlier event holds the device's stream back.
  predicate HeldBack(before: seq<Event>, d: Device, held: set<Held>, g: Grace)
  {
    exists i :: 0 <= i < |before| && before[i].device == d && Judged(before[i], held, g) == Defer
  }

  function Outcome(before: seq<Event>, e: Event, held: set<Held>, g: Grace): Verdict
  {
    if HeldBack(before, e.device, held, g) then Defer else Judged(e, held, g)
  }

  function Handed(e: Event, v: Verdict): seq<Delivery>
  {
    match v
    case Deliver => [Opened(e)]
    case Quarantine => [Carrier(e)]
    case _ => []
  }

  function Tallied(s: Stats, v: Verdict): Stats
  {
    match v
    case Deliver => s
    case Quarantine => s.(undecryptable := s.undecryptable + 1)
    case Skip => s.(skipped := s.skipped + 1)
    case Defer => s.(truncated := s.truncated + 1)
  }

  function Delivered(raw: seq<Event>, held: set<Held>, g: Grace): seq<Delivery>
  {
    if raw == [] then []
    else
      var n := |raw| - 1;
      Delivered(raw[..n], held, g) + Handed(raw[n], Outcome(raw[..n], raw[n], held, g))
  }

  function Counts(raw: seq<Event>, held: set<Held>, g: Grace): Stats
  {
    if raw == [] then Stats(0, 0, 0)
    else
      var n := |raw| - 1;
      Tallied(Counts(raw[..n], held, g), Outcome(raw[..n], raw[n], held, g))
  }

  // ---------- the pull ----------

  // WCKCandidates: the hinted key, or with no hint every key held at the epoch.
  method Candidates(held: set<Held>, epoch: int, hint: Hint) returns (keys: seq<Key>)
    ensures forall k :: k in keys <==> Held(epoch, k) in held && hint != NoDigest && (hint.DigestOf? ==> k == hint.key)
  {
    keys := [];
    if hint == NoDigest {
      return;
    }
    if hint.DigestOf? {
      if Held(epoch, hint.key) in held {
        keys := [hint.key];
      }
      return;
    }
    var todo := held;
    while todo != {}
      invariant todo <= held
      invariant forall k :: k in keys ==> Held(epoch, k) in held
      invariant forall h :: h in held && h !in todo && h.epoch == epoch ==> h.key in keys
      decreases |todo|
    {
      var h :| h in todo;
      todo := todo - {h};
      if h.epoch == epoch {
        keys := keys + [h.key];
      }
    }
    forall k | Held(epoch, k) in held ensures k in keys {
      assert Held(epoch, k).key in keys;
    }
  }

  // A sealed event: the hinted key first, then every key at the epoch.
  method JudgeSealed(e: Event, held: set<Held>, g: Grace) returns (v: Verdict)
    requires e.payload.Sealed?
    ensures v == Judged(e, held, g)
  {
    var epoch, hint := e.payload.epoch, e.payload.hint;
    var exact: seq<Key> := [];
    if hint != NoHint {
      exact := Candidates(held, epoch, hint);
    }
    var allHeld := Candidates(held, epoch, NoHint);
    EpochIffCandidates(held, epoch, allHeld);
    if allHeld == [] {
      return if g.keyExpired(epoch, NoHint) then Quarantine else Defer;
    }
    var candidates := exact + allHeld;
    assert forall k :: k in candidates ==> Held(epoch, k) in held;
    for i := 0 to |candidates|
      invariant forall j :: 0 <= j < i ==> !(e.payload.intact && candidates[j] == e.payload.key)
    {
      if e.payload.intact && candidates[i] == e.payload.key {
        return Deliver;
      }
    }
    assert e.payload.key in allHeld ==> e.payload.key in candidates;
    if hint != NoHint && exact == [] {
      if hint == NoDigest || g.keyExpired(epoch, hint) {
        return Quarantine;
      }
      assert hint.key !in exact;
      return Defer;
    }
    assert hint.DigestOf? ==> exact[0] in exact;
    v := Quarantine;
  }

  lemma EpochIffCandidates(held: set<Held>, epoch: int, keys: seq<Key>)
    requires forall k :: k in keys <==> Held(epoch, k) in held
    ensures keys != [] <==> HoldsEpoch(held, epoch)
  {
    if keys != [] {
      assert keys[0] in keys;
    }
    if h :| h in held && h.epoch == epoch {
      assert h == Held(epoch, h.key) && h.key in keys;
    }
  }

  method Judge(e: Event, held: set<Held>, g: Grace) returns (v: Verdict)
    ensures v == Judged(e, held, g)
  {
    match e.payload {
      case Grant(_, _) => v := Deliver;
      case RetiredV1 => v := Skip;
      case Plaintext => v := Skip;
      case Malformed => v := Quarantine;
      case Versioned(version) =>
        if version <= ENVELOPE_VERSION {
          v := Quarantine;
        } else {
          v := if g.versionExpired(e) then Quarantine else Defer;
        }
      case Sealed(_, _, _, _) => v := JudgeSealed(e, held, g);
    }
  }

  // The first pass: every usable grant in the batch, wherever it stands.
  method IngestGrants(raw: seq<Event>, before: set<Held>) returns (held: set<Held>)
    ensures held == Ingested(raw, before)
  {
    held := before;
    for i := 0 to |raw|
      invariant held == Ingested(raw[..i], before)
    {
      assert raw[..i + 1] == raw[..i] + [raw[i]];
      if raw[i].payload.Grant? && raw[i].payload.granted.Some? {
        held := held + {Held(raw[i].payload.epoch, raw[i].payload.granted.value)};
      }
    }
    assert raw[..|raw|] == raw;
  }

  // The second pass: event by event, dropping the rest of a device's events once one is deferred.
  method DecryptPass(raw: seq<Event>, held: set<Held>, g: Grace) returns (out: seq<Delivery>, stats: Stats)
    ensures out == Delivered(raw, held, g) && stats == Counts(raw, held, g)
  {
    out, stats := [], Stats(0, 0, 0);
    var deferred: set<Device> := {};
    for i := 0 to |raw|
      invariant forall d :: d in deferred <==> HeldBack(raw[..i], d, held, g)
      invariant out == Delivered(raw[..i], held, g) && stats == Counts(raw[..i], held, g)
    {
      var e := raw[i];
      assert raw[..i + 1][..i] == raw[..i] && raw[..i + 1][i] == e;
      HeldBackOneMore(raw[..i], e, held, g);
      assert raw[..i + 1] == raw[..i] + [e];
      if e.device in deferred {
        stats := stats.(truncated := stats.truncated + 1);
        continue;
      }
      var v := Judge(e, held, g);
      if v == Defer {
        deferred := deferred + {e.device};
      }
      out := out + Handed(e, v);
      stats := Tallied(stats, v);
    }
    assert raw[..|raw|] == raw;
  }

  // EncryptedHub.Pull, once the backend answered.
  method Pull(raw: seq<Event>, before: set<Held>, g: Grace)
    returns (out: seq<Delivery>, stats: Stats, held: set<Held>)
    ensures held == Ingested(raw, before)
    ensures out == Delivered(raw, held, g) && stats == Counts(raw, held, g)
    // Clear counters mean the whole batch came through.
    ensures stats == Stats(0, 0, 0) <==> AllReadable(raw, held)
    ensures stats == Stats(0, 0, 0) ==> out == AllOpened(raw)
  {
    held := IngestGrants(raw, before);
    out, stats := DecryptPass(raw, held, g);
    ClearIffAllReadable(raw, held, g);
  }

  lemma HeldBackOneMore(before: seq<Event>, e: Event, held: set<Held>, g: Grace)
    ensures forall d :: HeldBack(before + [e], d, held, g) <==>
                        HeldBack(before, d, held, g) || (d == e.device && Judged(e, held, g) == Defer)
  {
    var more := before + [e];
    forall d ensures HeldBack(more, d, held, g) <==>
                     HeldBack(before, d, held, g) || (d == e.device && Judged(e, held, g) == Defer) {
      if i :| 0 <= i < |before| && before[i].device == d && Judged(before[i], held, g) == Defer {
        assert more[i] == before[i];
      }
      if d == e.device && Judged(e, held, g) == Defer {
        assert more[|before|] == e;
      }
    }
  }

  // ---------- what gets through ----------

  // Every event is handed on, skipped or held back, and counted once.
  lemma {:induction false} NothingIsLost(raw: seq<Event>, held: set<Held>, g: Grace)
    ensures var s := Counts(raw, held, g);
            && s.truncated + s.skipped + |Delivered(raw, held, g)| == |raw|
            && s.undecryptable <= |Delivered(raw, held, g)|
    decreases |raw|
  {
    if raw != [] {
      NothingIsLost(raw[..|raw| - 1], held, g);
    }
  }

  // Nothing is ever opened but a grant, or an untampered event whose key this device holds; what is
  // handed on for quarantine is still sealed.
  lemma {:induction false} OnlyAuthenticIsOpened(raw: seq<Event>, held: set<Held>, g: Grace, x: Delivery)
    requires x in Delivered(raw, held, g)
    ensures x.e in raw
    ensures x.Opened? ==>
              || x.e.payload.Grant?
              || (x.e.payload.Sealed? && x.e.payload.intact && Held(x.e.payload.epoch, x.e.payload.key) in held)
    ensures x.Carrier? ==> x.e.payload.Malformed? || x.e.payload.Versioned? || x.e.payload.Sealed?
    decreases |raw|
  {
    var n := |raw| - 1;
    if x in Delivered(raw[..n], held, g) {
      OnlyAuthenticIsOpened(raw[..n], held, g, x);
    }
  }

  predicate AllReadable(raw: seq<Event>, held: set<Held>)
  {
    forall i :: 0 <= i < |raw| ==> Readable(raw[i], held)
  }

  function AllOpened(raw: seq<Event>): seq<Delivery>
  {
    seq(|raw|, i requires 0 <= i < |raw| => Opened(raw[i]))
  }

  // The counters are clear exactly when this device can read the whole batch, and then the pull
  // handed on all of it, in order and in plain.
  lemma {:induction false} ClearIffAllReadable(raw: seq<Event>, held: set<Held>, g: Grace)
    ensures Counts(raw, held, g) == Stats(0, 0, 0) <==> AllReadable(raw, held)
    ensures AllReadable(raw, held) ==> Delivered(raw, held, g) == AllOpened(raw)
    decreases |raw|
  {
    if raw != [] {
      var n := |raw| - 1;
      ClearIffAllReadable(raw[..n], held, g);
      assert AllReadable(raw, held) <==> AllReadable(raw[..n], held) && Readable(raw[n], held) by {
        assert forall i :: 0 <= i < n ==> raw[..n][i] == raw[i];
      }
      if AllReadable(raw, held) {
        assert !HeldBack(raw[..n], raw[n].device, held, g);
        assert AllOpened(raw) == AllOpened(raw[..n]) + [Opened(raw[n])];
      }
    }
  }

  // ---------- one stream does not hold back another ----------

  function Stream(raw: seq<Event>, d: Device): (s: seq<Event>)
    ensures forall e :: e in s ==> e.device == d
  {
    if raw == [] then []
    else
      var n := |raw| - 1;
      Stream(raw[..n], d) + if raw[n].device == d then [raw[n]] else []
  }

  function Share(out: seq<Delivery>, d: Device): seq<Delivery>
  {
    if out == [] then []
    else
      var n := |out| - 1;
      Share(out[..n], d) + if out[n].e.device == d then [out[n]] else []
  }

  lemma ShareOfMore(out: seq<Delivery>, e: Event, v: Verdict, d: Device)
    ensures Share(out + Handed(e, v), d) == Share(out, d) + if e.device == d then Handed(e, v) else []
  {
    if Handed(e, v) == [] {
      assert out + Handed(e, v) == out;
    } else {
      assert (out + Handed(e, v))[..|out|] == out;
    }
  }

  lemma {:induction false} HeldBackInStream(raw: seq<Event>, d: Device, held: set<Held>, g: Grace)
    ensures HeldBack(Stream(raw, d), d, held, g) <==> HeldBack(raw, d, held, g)
    decreases |raw|
  {
    if raw != [] {
      var n := |raw| - 1;
      HeldBackInStream(raw[..n], d, held, g);
      HeldBackOneMore(raw[..n], raw[n], held, g);
      HeldBackOneMore(Stream(raw[..n], d), raw[n], held, g);
      assert raw == raw[..n] + [raw[n]];
      assert Stream(raw[..n], d) + [] == Stream(raw[..n], d);
    }
  }

  // Each device's share of a pull is what pulling its stream alone gives.
  lemma {:induction false} StreamsAreIndependent(raw: seq<Event>, d: Device, held: set<Held>, g: Grace)
    ensures Share(Delivered(raw, held, g), d) == Delivered(Stream(raw, d), held, g)
    decreases |raw|
  {
    if raw != [] {
      var n := |raw| - 1;
      var v := Outcome(raw[..n], raw[n], held, g);
      StreamsAreIndependent(raw[..n], d, held, g);
      ShareOfMore(Delivered(raw[..n], held, g), raw[n], v, d);
      HeldBackInStream(raw[..n], d, held, g);
      var s := Stream(raw[..n], d);
      if raw[n].device == d {
        assert (s + [raw[n]])[..|s|] == s;
      } else {
        assert s + [] == s;
      }
    }
  }

  // ---------- what is held back comes with a later pull ----------

  // The first event of a stream that is deferred, or its end: the cursor stays there.
  function FirstDeferred(s: seq<Event>, held: set<Held>, g: Grace): (n: nat)
    ensures n <= |s|
    ensures forall i :: 0 <= i < n ==> Judged(s[i], held, g) != Defer
    ensures n < |s| ==> Judged(s[n], held, g) == Defer
  {
    if s == [] || Judged(s[0], held, g) == Defer then 0 else 1 + FirstDeferred(s[1..], held, g)
  }

  // A pull hands on a stream up to its first deferred event and nothing behind it, skipping
  // nothing it could ever read.
  lemma {:induction false} TailIsHeldBack(s: seq<Event>, d: Device, held: set<Held>, g: Grace, n: nat)
    requires FirstDeferred(s, held, g) <= n <= |s| && forall e :: e in s ==> e.device == d
    ensures Delivered(s[..n], held, g) == Delivered(s[..FirstDeferred(s, held, g)], held, g)
    ensures Counts(s[..n], held, g).truncated ==
            Counts(s[..FirstDeferred(s, held, g)], held, g).truncated + n - FirstDeferred(s, held, g)
    decreases n
  {
    var first := FirstDeferred(s, held, g);
    if n > first {
      TailIsHeldBack(s, d, held, g, n - 1);
      assert s[..n][..n - 1] == s[..n - 1] && s[n - 1] in s && s[first] in s;
      assert Outcome(s[..n - 1], s[n - 1], held, g) == Defer by {
        if n - 1 > first {
          assert s[..n - 1][first] == s[first];
        }
      }
    }
  }

  lemma OpenedInTwo(s: seq<Event>, n: nat)
    requires n <= |s|
    ensures AllOpened(s[..n]) + AllOpened(s[n..]) == AllOpened(s)
  {
  }

  // Once the keys are there, resuming at the cursor completes the stream: the two pulls together
  // hand on all of it, in order and in plain, with nothing twice.
  lemma ResumedIsWhole(s: seq<Event>, d: Device, held: set<Held>, g: Grace, later: set<Held>, after: Grace)
    requires forall e :: e in s ==> e.device == d
    requires var n := FirstDeferred(s, held, g); AllReadable(s[..n], held) && AllReadable(s[n..], later)
    ensures Delivered(s, held, g) + Delivered(s[FirstDeferred(s, held, g)..], later, after) == AllOpened(s)
  {
    var n := FirstDeferred(s, held, g);
    assert s[..|s|] == s;
    TailIsHeldBack(s, d, held, g, |s|);
    ClearIffAllReadable(s[..n], held, g);
    ClearIffAllReadable(s[n..], later, after);
    OpenedInTwo(s, n);
  }
}
