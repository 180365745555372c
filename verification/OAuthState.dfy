/**
 * The state parameter of an OAuth flow: signed with an expiry, bound to workspace, user and browser, and spent by a
 * marker row when it is verified. Signatures are ideal: a tag can only come from signing that payload with that key.
 */
module OAuthState {
  import opened Wrappers
  import opened Base64
  import Envelope
  import Sealing

  const STATE_TTL_SECONDS := 600
  const MARKER_SLACK_SECONDS := 60

  datatype Binding = Binding(workspaceId: string, userId: string, nonce: string)

  /** The verifier travels sealed. */
  datatype Payload = Payload(binding: Binding, expires: int, sealed: string)

  datatype Tag = Tag(key: seq<byte>, payload: Payload)

  datatype Signed = Signed(payload: Payload, tag: Tag)

  datatype StateError = BadSignature | Expired | Mismatch | Malformed

  function NonceAad(nonce: string): string {
    "oauth-state|" + nonce
  }

  /** Sealed under the first of the keys, and signed with the key derived from it. */
  function SignState(p: Sealing.Platform, keys: seq<Envelope.Key>, binding: Binding, verifier: string, now: int, iv: seq<byte>): Signed
    requires keys != []
  {
    var sealed := Sealing.Seal(p, keys, Sealing.Material(verifier, None, None), NonceAad(binding.nonce), iv);
    var payload := Payload(binding, now + STATE_TTL_SECONDS, sealed);
    Signed(payload, Tag(keys[0].raw, payload))
  }

  function VerifyState(p: Sealing.Platform, keys: seq<Envelope.Key>, state: Signed, expected: Binding, now: int): Result<string, StateError>
    requires keys != []
  {
    if state.tag != Tag(keys[0].raw, state.payload) then Err(BadSignature)
    else if state.payload.expires <= now then Err(Expired)
    else if state.payload.binding != expected then Err(Mismatch)
    else match Sealing.Open(p, keys, state.payload.sealed, NonceAad(state.payload.binding.nonce))
      case Err(_) => Err(Malformed)
      case Ok(m) => Ok(m.access)
  }

  /** The key the state was sealed with is found under its id. */
  predicate Opens(keys: seq<Envelope.Key>, signing: seq<Envelope.Key>)
    requires signing != []
  {
    var found := Sealing.FindKey(keys, signing[0].kid);
    found.Some? && found.value.raw == signing[0].raw
  }

  /** What opening the verifier gives. */
  lemma OpensVerifier(p: Sealing.Platform, signing: seq<Envelope.Key>, keys: seq<Envelope.Key>, verifier: string, nonce: string, iv: seq<byte>)
    requires Sealing.Ideal(p) && Envelope.KeysOk(signing) && iv != []
    ensures var r := Sealing.Open(p, keys, Sealing.Seal(p, signing, Sealing.Material(verifier, None, None), NonceAad(nonce), iv), NonceAad(nonce));
      if verifier != "" && Opens(keys, signing) then r.Ok? && r.value.access == verifier else r.Err?
  {
    hide Sealing.Seal, Sealing.Open, Sealing.Ideal, Sealing.FindKey;
    var m := Sealing.Material(verifier, None, None);
    Sealing.OpensForItsRowOnly(p, signing, keys, m, NonceAad(nonce), iv, NonceAad(nonce));
    if Opens(keys, signing) {
      var found := Sealing.FindKey(keys, signing[0].kid).value;
      Sealing.FoundHasKid(keys, signing[0].kid);
      assert found == signing[0];
      Sealing.OpensUnderRetainedKey(p, signing, keys, m, NonceAad(nonce), iv);
    }
  }

  /**
   * A state verifies, and gives the verifier back, exactly within its ten minutes, for the workspace, user and nonce it
   * was signed for, while the first key is the one that signed it and that key is also found under the id it had.
   */
  lemma VerifiesExactly(p: Sealing.Platform, signing: seq<Envelope.Key>, keys: seq<Envelope.Key>, binding: Binding, verifier: string,
    at: int, iv: seq<byte>, expected: Binding, now: int)
    requires Sealing.Ideal(p) && Envelope.KeysOk(signing) && keys != [] && iv != []
    ensures VerifyState(p, keys, SignState(p, signing, binding, verifier, at, iv), expected, now) == Ok(verifier)
      <==> now < at + STATE_TTL_SECONDS && expected == binding && keys[0].raw == signing[0].raw && Opens(keys, signing) && verifier != ""
  {
    hide Sealing.Seal, Sealing.Open, Sealing.Ideal, Opens;
    OpensVerifier(p, signing, keys, verifier, binding.nonce, iv);
  }

  /**
   * Only signing makes a state verify: whatever is sent with a tag that signing has produced, if it verifies it is the
   * state that was signed, for the same binding and unexpired, and it gives the verifier it was signed with.
   */
  lemma VerifiedWasSigned(p: Sealing.Platform, signing: seq<Envelope.Key>, keys: seq<Envelope.Key>, binding: Binding, verifier: string,
    at: int, iv: seq<byte>, state: Signed, expected: Binding, now: int)
    requires Sealing.Ideal(p) && Envelope.KeysOk(signing) && keys != [] && iv != []
    requires state.tag == SignState(p, signing, binding, verifier, at, iv).tag && VerifyState(p, keys, state, expected, now).Ok?
    ensures state == SignState(p, signing, binding, verifier, at, iv) && expected == binding
    ensures VerifyState(p, keys, state, expected, now) == Ok(verifier) && now < at + STATE_TTL_SECONDS
  {
    hide Sealing.Seal, Sealing.Open, Sealing.Ideal, Opens;
    OpensVerifier(p, signing, keys, verifier, binding.nonce, iv);
  }

  lemma RotationEndsFlows(p: Sealing.Platform, signing: seq<Envelope.Key>, newKey: Envelope.Key, binding: Binding, verifier: string,
    at: int, iv: seq<byte>, now: int)
    requires signing != [] && newKey.raw != signing[0].raw && newKey.kid != signing[0].kid
    ensures Sealing.Retains([newKey] + signing, signing)
    ensures VerifyState(p, [newKey] + signing, SignState(p, signing, binding, verifier, at, iv), binding, now) == Err(BadSignature)
  {
    hide Sealing.Seal, Sealing.Open;
    Sealing.FirstIsFound(signing);
    assert ([newKey] + signing)[1..] == signing;
  }

  /** Giving the first key another id keeps the signature but ends the flows as well. */
  lemma RenamingEndsFlows(p: Sealing.Platform, key: Envelope.Key, kid: string, binding: Binding, verifier: string,
    at: int, iv: seq<byte>, now: int)
    requires Sealing.Ideal(p) && Envelope.KeysOk([key]) && kid != key.kid && iv != [] && now < at + STATE_TTL_SECONDS
    ensures VerifyState(p, [key.(kid := kid)], SignState(p, [key], binding, verifier, at, iv), binding, now) == Err(Malformed)
  {
    hide Sealing.Seal, Sealing.Open, Sealing.Ideal;
    var renamed := [key.(kid := kid)];
    assert renamed[1..] == [];
    assert Sealing.FindKey(renamed, key.kid) == Sealing.FindKey(renamed[1..], key.kid);
    assert !Opens(renamed, [key]);
    OpensVerifier(p, [key], renamed, verifier, binding.nonce, iv);
  }

  // ----- the used-markers -----

  type Markers = map<string, int>

  function Swept(markers: Markers, now: int): Markers {
    map n | n in markers && !(markers[n] <= now) :: markers[n]
  }

  function Marked(markers: Markers, nonce: string, until: int): Markers {
    if nonce in markers then markers else markers[nonce := until]
  }

  datatype Outcome = Passed(verifier: string) | NotThisBrowser | Invalid(error: StateError) | AlreadyUsed

  class Settings {
    var markers: Markers

    method DeleteExpired(now: int)
      modifies this
      ensures markers == Swept(old(markers), now)
    {
      markers := map n | n in markers && !(markers[n] <= now) :: markers[n];
    }

    /** Insert if absent; true when this call inserted. */
    method Claim(nonce: string, until: int) returns (won: bool)
      modifies this
      ensures won == (nonce !in old(markers)) && markers == Marked(old(markers), nonce, until)
    {
      won := nonce !in markers;
      if won {
        markers := markers[nonce := until];
      }
    }

    /** A callback that nothing interrupts passes exactly when the state verifies and no unexpired marker has its nonce. */
    method OauthCallback(p: Sealing.Platform, keys: seq<Envelope.Key>, state: Signed, cookieNonce: Option<string>, workspaceId: string, userId: string, now: int)
      returns (o: Outcome)
      requires keys != []
      modifies this
      ensures var verified := VerifyState(p, keys, state, Binding(workspaceId, userId, state.payload.binding.nonce), now);
        var nonce := state.payload.binding.nonce;
        if cookieNonce != Some(nonce) || nonce == "" then o == NotThisBrowser && markers == old(markers)
        else match verified
          case Err(e) => o == Invalid(e) && markers == old(markers)
          case Ok(verifier) =>
            o == (if nonce in old(markers) && old(markers)[nonce] > now then AlreadyUsed else Passed(verifier))
            && markers == Marked(Swept(old(markers), now), nonce, now + STATE_TTL_SECONDS + MARKER_SLACK_SECONDS)
    {
      var nonce := state.payload.binding.nonce;
      if cookieNonce != Some(nonce) || nonce == "" {
        return NotThisBrowser;
      }
      var verified := VerifyState(p, keys, state, Binding(workspaceId, userId, nonce), now);
      if verified.Err? {
        return Invalid(verified.error);
      }
      DeleteExpired(now);
      var won := Claim(nonce, now + STATE_TTL_SECONDS + MARKER_SLACK_SECONDS);
      if !won {
        return AlreadyUsed;
      }
      o := Passed(verified.value);
    }
  }

  // ----- overlapping callbacks -----

  /** Where a callback stands: verified, swept, or done with its claim. */
  datatype Stage = Verified | SweptOld | Done

  /** `now` is the clock the callback read when it began. */
  datatype Callback = Callback(nonce: string, now: int, stage: Stage)

  /** `signedAt` by nonce; `latestSweep` is the furthest clock any sweep has used. */
  datatype State = State(signedAt: map<string, int>, markers: Markers, latestSweep: Option<int>, callbacks: seq<Callback>, passes: seq<string>)

  datatype Event = Sign(nonce: string, at: int) | Arrive(nonce: string, now: int) | Sweep(i: nat) | Claims(i: nat)

  function Later(a: Option<int>, b: int): Option<int> {
    if a.Some? && a.value > b then a else Some(b)
  }

  function Step(s: State, e: Event): Option<State> {
    match e
    case Sign(nonce, at) => if nonce in s.signedAt then None else Some(s.(signedAt := s.signedAt[nonce := at]))
    case Arrive(nonce, now) =>
      if nonce in s.signedAt && now < s.signedAt[nonce] + STATE_TTL_SECONDS then
        Some(s.(callbacks := s.callbacks + [Callback(nonce, now, Verified)]))
      else None
    case Sweep(i) =>
      if i < |s.callbacks| && s.callbacks[i].stage.Verified? then
        var c := s.callbacks[i];
        Some(s.(markers := Swept(s.markers, c.now), latestSweep := Later(s.latestSweep, c.now), callbacks := s.callbacks[i := c.(stage := SweptOld)]))
      else None
    case Claims(i) =>
      if i < |s.callbacks| && s.callbacks[i].stage.SweptOld? then
        var c := s.callbacks[i];
        Some(s.(markers := Marked(s.markers, c.nonce, c.now + STATE_TTL_SECONDS + MARKER_SLACK_SECONDS),
          callbacks := s.callbacks[i := c.(stage := Done)],
          passes := if c.nonce in s.markers then s.passes else s.passes + [c.nonce]))
      else None
  }

  /**
   * Clocks: a callback's clock is at most `lag` behind the signer's, and no sweep before a claim used a clock more than
   * `race` ahead of the claimer's.
   */
  predicate Timely(s: State, e: Event, lag: nat, race: nat) {
    match e
    case Arrive(nonce, now) => nonce in s.signedAt ==> now >= s.signedAt[nonce] - lag
    case Claims(i) => i < |s.callbacks| && s.latestSweep.Some? ==> s.latestSweep.value <= s.callbacks[i].now + race
    case _ => true
  }

  predicate Runs(s: State, events: seq<Event>, lag: nat, race: nat)
    decreases |events|
  {
    events != [] ==> Timely(s, events[0], lag, race) && Step(s, events[0]).Some? && Runs(Step(s, events[0]).value, events[1..], lag, race)
  }

  function After(s: State, events: seq<Event>, lag: nat, race: nat): State
    requires Runs(s, events, lag, race)
    decreases |events|
  {
    if events == [] then s else After(Step(s, events[0]).value, events[1..], lag, race)
  }

  const START := State(map[], map[], None, [], [])

  ghost predicate AtMostOnce(s: State) {
    forall i, j :: 0 <= i < j < |s.passes| ==> s.passes[i] != s.passes[j]
  }

  /** A state that passed has a marker until past its expiry, or a sweep has been later than any claim of it can be. */
  ghost predicate Spent(s: State, nonce: string, lag: nat) {
    nonce in s.signedAt
    && var until := s.signedAt[nonce] - lag + STATE_TTL_SECONDS + MARKER_SLACK_SECONDS;
    (nonce in s.markers && s.markers[nonce] >= until) || (s.latestSweep.Some? && s.latestSweep.value >= until)
  }

  predicate CallbackOk(s: State, c: Callback, lag: nat) {
    c.nonce in s.signedAt && s.signedAt[c.nonce] - lag <= c.now < s.signedAt[c.nonce] + STATE_TTL_SECONDS
  }

  ghost predicate Inv(s: State, lag: nat) {
    AtMostOnce(s)
    && (forall i :: 0 <= i < |s.passes| ==> Spent(s, s.passes[i], lag))
    && (forall i :: 0 <= i < |s.callbacks| ==> CallbackOk(s, s.callbacks[i], lag))
  }

  lemma SpentSweep(s: State, i: nat, nonce: string, lag: nat)
    requires Step(s, Sweep(i)).Some? && Spent(s, nonce, lag)
    ensures Spent(Step(s, Sweep(i)).value, nonce, lag)
  {
  }

  lemma SpentClaim(s: State, i: nat, nonce: string, lag: nat)
    requires Step(s, Claims(i)).Some? && Spent(s, nonce, lag)
    ensures Spent(Step(s, Claims(i)).value, nonce, lag)
  {
  }

  /** A spent state is not passed again. */
  lemma SpentIsRefused(s: State, i: nat, lag: nat, race: nat)
    requires lag + race <= MARKER_SLACK_SECONDS && Timely(s, Claims(i), lag, race) && Step(s, Claims(i)).Some?
    requires CallbackOk(s, s.callbacks[i], lag) && Spent(s, s.callbacks[i].nonce, lag)
    ensures s.callbacks[i].nonce in s.markers
  {
  }

  lemma ClaimInv(s: State, i: nat, lag: nat, race: nat)
    requires lag + race <= MARKER_SLACK_SECONDS && Inv(s, lag) && Timely(s, Claims(i), lag, race) && Step(s, Claims(i)).Some?
    ensures Inv(Step(s, Claims(i)).value, lag)
  {
    hide Timely;
    var t, nonce := Step(s, Claims(i)).value, s.callbacks[i].nonce;
    assert CallbackOk(s, s.callbacks[i], lag);
    forall j | 0 <= j < |s.passes| ensures Spent(t, s.passes[j], lag) && (nonce !in s.markers ==> s.passes[j] != nonce) {
      SpentClaim(s, i, s.passes[j], lag);
      if s.passes[j] == nonce {
        SpentIsRefused(s, i, lag, race);
      }
    }
    assert nonce !in s.markers ==> Spent(t, nonce, lag);
  }

  lemma InvStep(s: State, e: Event, lag: nat, race: nat)
    requires lag + race <= MARKER_SLACK_SECONDS && Inv(s, lag) && Timely(s, e, lag, race) && Step(s, e).Some?
    ensures Inv(Step(s, e).value, lag)
  {
    match e
    case Claims(i) =>
      hide Inv, Step, Timely;
      ClaimInv(s, i, lag, race);
    case Sweep(i) =>
      hide Spent;
      forall j | 0 <= j < |s.passes| ensures Spent(Step(s, e).value, s.passes[j], lag) {
        SpentSweep(s, i, s.passes[j], lag);
      }
    case _ =>
  }

  lemma {:induction false} InvAfter(s: State, events: seq<Event>, lag: nat, race: nat)
    requires lag + race <= MARKER_SLACK_SECONDS && Inv(s, lag) && Runs(s, events, lag, race)
    ensures Inv(After(s, events, lag, race), lag)
    decreases |events|
  {
    hide Inv, Step, Timely;
    if events != [] {
      InvStep(s, events[0], lag, race);
      InvAfter(Step(s, events[0]).value, events[1..], lag, race);
    }
  }

  /** Whatever callbacks arrive and overlap, each signed state passes at most once. */
  ghost predicate SingleUse(lag: nat, race: nat) {
    forall events :: Runs(START, events, lag, race) ==> AtMostOnce(After(START, events, lag, race))
  }

  lemma Front(s: State, e: Event, t: State, rest: seq<Event>, lag: nat, race: nat)
    requires Timely(s, e, lag, race) && Step(s, e) == Some(t) && Runs(t, rest, lag, race)
    ensures Runs(s, [e] + rest, lag, race) && After(s, [e] + rest, lag, race) == After(t, rest, lag, race)
  {
    hide Step, Timely;
    assert ([e] + rest)[1..] == rest;
  }

  /** Two states signed: x at 0, y later. */
  function Two(lag: nat, markers: Markers, sweep: Option<int>, callbacks: seq<Callback>, passes: seq<string>): State {
    State(map["x" := 0, "y" := 660 - lag], markers, sweep, callbacks, passes)
  }

  /** The second half of a replay: the state has passed once, and its marker is swept away before the second claim. */
  lemma ReplayEnds(lag: nat, race: nat) returns (events: seq<Event>)
    requires lag + race > MARKER_SLACK_SECONDS
    ensures var c := Callback("x", 0 - lag, Done); var s := Two(lag, map["x" := 660 - lag], Some(0 - lag), [c], ["x"]);
      Runs(s, events, lag, race) && After(s, events, lag, race).passes == ["x", "x"]
  {
    hide Step, Timely;
    var c, d, b := Callback("x", 0 - lag, Done), Callback("x", 599, Verified), Callback("y", 660 - lag, Verified);
    var m: Markers := map["x" := 660 - lag];
    var c6 := [c] + [d];
    var c7 := c6[1 := d.(stage := SweptOld)];
    var c8 := c7 + [b];
    var c9 := c8[2 := b.(stage := SweptOld)];
    var s5, s6 := Two(lag, m, Some(0 - lag), [c], ["x"]), Two(lag, m, Some(0 - lag), c6, ["x"]);
    var s7 := Two(lag, Swept(m, 599), Some(599), c7, ["x"]);
    var s8 := s7.(callbacks := c8);
    var s9 := Two(lag, Swept(Swept(m, 599), 660 - lag), Later(Some(599), 660 - lag), c9, ["x"]);
    ArriveNow(s5, "x", 599, lag, race);
    SweepNow(s6, 1, lag, race);
    ArriveNow(s7, "y", 660 - lag, lag, race);
    SweepNow(s8, 2, lag, race);
    ClaimNow(s9, 1, lag, race);
    var s10 := Step(s9, Claims(1)).value;
    assert s10.passes == ["x", "x"];
    Front(s9, Claims(1), s10, [], lag, race);
    events := [Claims(1)] + [];
    Front(s8, Sweep(2), s9, events, lag, race);
    events := [Sweep(2)] + events;
    Front(s7, Arrive("y", 660 - lag), s8, events, lag, race);
    events := [Arrive("y", 660 - lag)] + events;
    Front(s6, Sweep(1), s7, events, lag, race);
    events := [Sweep(1)] + events;
    Front(s5, Arrive("x", 599), s6, events, lag, race);
    events := [Arrive("x", 599)] + events;
  }

  lemma ArriveNow(s: State, nonce: string, now: int, lag: nat, race: nat)
    requires nonce in s.signedAt && s.signedAt[nonce] - lag <= now < s.signedAt[nonce] + STATE_TTL_SECONDS
    ensures Step(s, Arrive(nonce, now)) == Some(s.(callbacks := s.callbacks + [Callback(nonce, now, Verified)]))
    ensures Timely(s, Arrive(nonce, now), lag, race)
  {
  }

  lemma SweepNow(s: State, i: nat, lag: nat, race: nat)
    requires i < |s.callbacks| && s.callbacks[i].stage.Verified?
    ensures var c := s.callbacks[i];
      Step(s, Sweep(i)) == Some(s.(markers := Swept(s.markers, c.now), latestSweep := Later(s.latestSweep, c.now), callbacks := s.callbacks[i := c.(stage := SweptOld)]))
    ensures Timely(s, Sweep(i), lag, race)
  {
  }

  lemma ClaimNow(s: State, i: nat, lag: nat, race: nat)
    requires i < |s.callbacks| && s.callbacks[i].stage.SweptOld? && s.callbacks[i].nonce !in s.markers
    requires s.latestSweep.Some? ==> s.latestSweep.value <= s.callbacks[i].now + race
    ensures var c := s.callbacks[i];
      Step(s, Claims(i)) == Some(s.(markers := s.markers[c.nonce := c.now + 660], callbacks := s.callbacks[i := c.(stage := Done)], passes := s.passes + [c.nonce]))
    ensures Timely(s, Claims(i), lag, race)
  {
  }

  /** Once the slack is outrun by one second, there is a run on which a state passes twice. */
  lemma Replays(lag: nat, race: nat) returns (events: seq<Event>)
    requires lag + race > MARKER_SLACK_SECONDS
    ensures Runs(START, events, lag, race) && !AtMostOnce(After(START, events, lag, race))
  {
    hide Step, Timely, Runs, After;
    var c := Callback("x", 0 - lag, Verified);
    var s1 := START.(signedAt := map["x" := 0]);
    var s2 := Two(lag, map[], None, [], []);
    var s3 := Two(lag, map[], None, [] + [c], []);
    var s4 := Two(lag, Swept(map[], 0 - lag), Some(0 - lag), ([] + [c])[0 := c.(stage := SweptOld)], []);
    var s5 := Two(lag, map["x" := 660 - lag], Some(0 - lag), [c.(stage := Done)], ["x"]);
    SignNow("x", 0, START, lag, race);
    SignNow("y", 660 - lag, s1, lag, race);
    assert s1.signedAt["y" := 660 - lag] == map["x" := 0, "y" := 660 - lag];
    ArriveNow(s2, "x", 0 - lag, lag, race);
    SweepNow(s3, 0, lag, race);
    ClaimNow(s4, 0, lag, race);
    events := ReplayEnds(lag, race);
    assert s4.callbacks[0 := c.(stage := Done)] == [c.(stage := Done)] && [] + ["x"] == ["x"];
    assert s4.markers["x" := 660 - lag] == map["x" := 660 - lag];
    assert Step(s4, Claims(0)) == Some(s5);
    Front(s4, Claims(0), s5, events, lag, race);
    events := [Claims(0)] + events;
    Front(s3, Sweep(0), s4, events, lag, race);
    events := [Sweep(0)] + events;
    Front(s2, Arrive("x", 0 - lag), s3, events, lag, race);
    events := [Arrive("x", 0 - lag)] + events;
    Front(s1, Sign("y", 660 - lag), s2, events, lag, race);
    events := [Sign("y", 660 - lag)] + events;
    Front(START, Sign("x", 0), s1, events, lag, race);
    events := [Sign("x", 0)] + events;
    var p := After(START, events, lag, race).passes;
    assert p[0] == p[1];
  }

  lemma SignNow(nonce: string, at: int, s: State, lag: nat, race: nat)
    requires nonce !in s.signedAt
    ensures Step(s, Sign(nonce, at)) == Some(s.(signedAt := s.signedAt[nonce := at])) && Timely(s, Sign(nonce, at), lag, race)
  {
  }

  /**
   * The 60 seconds a marker outlives its state are exactly what it takes: every state is single use if and only if the
   * verifier's lag behind the signer and the spread between overlapping callbacks together stay within them.
   */
  lemma SlackIsExact(lag: nat, race: nat)
    ensures SingleUse(lag, race) <==> lag + race <= MARKER_SLACK_SECONDS
  {
    hide Step, Timely, Runs, After;
    if lag + race <= MARKER_SLACK_SECONDS {
      forall events | Runs(START, events, lag, race) ensures AtMostOnce(After(START, events, lag, race)) {
        InvAfter(START, events, lag, race);
      }
    } else {
      var events := Replays(lag, race);
    }
  }
}
