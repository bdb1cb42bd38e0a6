/**
 Saving the sign-in state as a label and reading it back
 (rust/src/integration.rs, AuthState; rust/src/app.rs, open and set_auth).
 */
module AuthLabels {
  import opened Wrappers

  datatype AuthState =
    | NeedsHardwarePairing
    | NeedsCredentials
    | AuthenticatingAccount
    | NeedsTwoFactor
    | NeedsSmsTwoFactor
    | NeedsDeviceTwoFactor
    | NeedsExtraStep(step: string)
    | Ready
    | Errored(error: string)

  const EXTRA: string := "needs_extra:"
  const ERROR: string := "error:"

  function Label(s: AuthState): string {
    match s
    case NeedsHardwarePairing => "needs_pairing"
    case NeedsCredentials => "needs_credentials"
    case AuthenticatingAccount => "authenticating"
    case NeedsTwoFactor => "needs_2fa"
    case NeedsSmsTwoFactor => "needs_sms_2fa"
    case NeedsDeviceTwoFactor => "needs_device_2fa"
    case NeedsExtraStep(step) => EXTRA + step
    case Ready => "ready"
    case Errored(error) => ERROR + error
  }

  /** Every state but the two with a payload is a word of its own, by which an older database knows it. */
  lemma LabelsInFull()
    ensures Label(NeedsHardwarePairing) == "needs_pairing" && Label(NeedsCredentials) == "needs_credentials"
    ensures Label(AuthenticatingAccount) == "authenticating" && Label(Ready) == "ready"
    ensures Label(NeedsTwoFactor) == "needs_2fa" && Label(NeedsSmsTwoFactor) == "needs_sms_2fa"
    ensures Label(NeedsDeviceTwoFactor) == "needs_device_2fa"
    ensures forall t :: Label(NeedsExtraStep(t)) == "needs_extra:" + t && Label(Errored(t)) == "error:" + t
  {
  }

  /** Strips a prefix as often as it occurs at the start. */
  function TrimStart(s: string, prefix: string): (t: string)
    requires prefix != ""
    ensures !(prefix <= t)
    ensures |t| <= |s|
    ensures prefix <= s ==> |t| < |s|
    ensures !(prefix <= s) ==> t == s
    decreases |s|
  {
    if prefix <= s then TrimStart(s[|prefix|..], prefix) else s
  }

  /** A prefix, n times over. */
  function Copies(prefix: string, n: nat): string {
    if n == 0 then "" else prefix + Copies(prefix, n - 1)
  }

  lemma OneCopyLess(prefix: string, n: nat, t: string)
    requires n > 0
    ensures prefix <= Copies(prefix, n) + t
    ensures (Copies(prefix, n) + t)[|prefix|..] == Copies(prefix, n - 1) + t
  {
    assert Copies(prefix, n) + t == prefix + (Copies(prefix, n - 1) + t);
  }

  lemma {:induction false} TrimStartCounts(s: string, prefix: string) returns (n: nat)
    requires prefix != ""
    ensures s == Copies(prefix, n) + TrimStart(s, prefix)
    decreases |s|
  {
    if prefix <= s {
      n := TrimStartCounts(s[|prefix|..], prefix);
      n := n + 1;
      assert s == prefix + s[|prefix|..];
    } else {
      n := 0;
    }
  }

  lemma {:induction false} TrimStartOfCopies(prefix: string, n: nat, t: string)
    requires prefix != "" && !(prefix <= t)
    ensures TrimStart(Copies(prefix, n) + t, prefix) == t
  {
    if n == 0 {
      assert Copies(prefix, 0) + t == t;
    } else {
      OneCopyLess(prefix, n, t);
      TrimStartOfCopies(prefix, n - 1, t);
    }
  }

  /** What is stripped is copies of the prefix, and all of them that lead. */
  lemma TrimStartExactly(s: string, prefix: string, t: string)
    requires prefix != ""
    ensures t == TrimStart(s, prefix) <==> !(prefix <= t) && exists n: nat :: s == Copies(prefix, n) + t
  {
    var k := TrimStartCounts(s, prefix);
    if !(prefix <= t) && exists n: nat :: s == Copies(prefix, n) + t {
      var n: nat :| s == Copies(prefix, n) + t;
      TrimStartOfCopies(prefix, n, t);
    }
  }

  /** The state the application opens in, given whether a device is paired and the saved label. */
  function Restore(paired: bool, saved: Option<string>): AuthState {
    if !paired then NeedsHardwarePairing
    else
      match saved
      case None => NeedsCredentials
      case Some(text) =>
        if text == "ready" then Ready
        else if text == "authenticating" then AuthenticatingAccount
        else if text == "needs_2fa" then NeedsTwoFactor
        else if text == "needs_sms_2fa" then NeedsSmsTwoFactor
        else if text == "needs_device_2fa" then NeedsDeviceTwoFactor
        else if EXTRA <= text then NeedsExtraStep(TrimStart(text, EXTRA))
        else if ERROR <= text then Errored(TrimStart(text, ERROR))
        else NeedsCredentials
  }

  /** The payload would be mistaken for part of its own prefix. */
  predicate RepeatsItsPrefix(s: AuthState) {
    match s
    case NeedsExtraStep(step) => EXTRA <= step
    case Errored(error) => ERROR <= error
    case _ => false
  }

  lemma TrimLabel(prefix: string, payload: string)
    requires prefix != ""
    ensures TrimStart(prefix + payload, prefix) == TrimStart(payload, prefix)
  {
    assert (prefix + payload)[|prefix|..] == payload;
  }

  lemma ExtraLabel(step: string)
    ensures Restore(true, Some(EXTRA + step)) == NeedsExtraStep(TrimStart(step, EXTRA))
  {
    var text := EXTRA + step;
    TrimLabel(EXTRA, step);
    assert text[6] == 'e' && text[0] == 'n';
    assert "needs_2fa"[6] == '2' && "needs_sms_2fa"[6] == 's' && "needs_device_2fa"[6] == 'd';
  }

  lemma ErrorLabel(error: string)
    ensures Restore(true, Some(ERROR + error)) == Errored(TrimStart(error, ERROR))
  {
    var text := ERROR + error;
    TrimLabel(ERROR, error);
    assert text[0] == 'e';
  }

  /** Saving and reopening gives the state back exactly when it is not the unpaired one and does not repeat its prefix. */
  lemma RoundTripExactly(s: AuthState)
    ensures Restore(true, Some(Label(s))) == s <==> s != NeedsHardwarePairing && !RepeatsItsPrefix(s)
  {
    match s
    case NeedsExtraStep(step) => ExtraLabel(step);
    case Errored(error) => ErrorLabel(error);
    case NeedsHardwarePairing => assert "needs_pairing"[6] == 'p' && EXTRA[6] == 'e' && "needs_pairing"[0] != ERROR[0];
    case NeedsCredentials => assert "needs_credentials"[6] == 'c' && EXTRA[6] == 'e' && "needs_credentials"[0] != ERROR[0];
    case _ =>
  }

  /** What is restored survives every further round. */
  lemma RestoreIsIdempotent(saved: Option<string>)
    ensures var s := Restore(true, saved); Restore(true, Some(Label(s))) == s
  {
    RoundTripExactly(Restore(true, saved));
  }

  /** Without a paired device, and only then, the application opens unpaired, whatever is saved. */
  lemma UnpairedExactly(paired: bool, saved: Option<string>)
    ensures Restore(paired, saved) == NeedsHardwarePairing <==> !paired
  {
  }

  /** A paired one asks for credentials exactly when nothing is saved or no later state has the saved label. */
  lemma AsksForCredentialsExactly(saved: Option<string>)
    ensures Restore(true, saved) == NeedsCredentials <==>
            saved.None? || forall s :: s != NeedsCredentials && s != NeedsHardwarePairing ==> Label(s) != saved.value
  {
    if saved.Some? {
      var text := saved.value;
      if EXTRA <= text { assert Label(NeedsExtraStep(text[|EXTRA|..])) == text; }
      if ERROR <= text { assert Label(Errored(text[|ERROR|..])) == text; }
      assert text == "ready" ==> Label(Ready) == text;
      assert text == "authenticating" ==> Label(AuthenticatingAccount) == text;
      assert text == "needs_2fa" ==> Label(NeedsTwoFactor) == text;
      assert text == "needs_sms_2fa" ==> Label(NeedsSmsTwoFactor) == text;
      assert text == "needs_device_2fa" ==> Label(NeedsDeviceTwoFactor) == text;
      forall s | Label(s) == text && s != NeedsCredentials && s != NeedsHardwarePairing
        ensures Restore(true, saved) != NeedsCredentials
      {
        match s
        case NeedsExtraStep(step) => ExtraLabel(step);
        case Errored(error) => ErrorLabel(error);
        case _ =>
      }
    }
  }

  // ---------------------------------------------------------------- the application state

  datatype Event = AuthStateChanged(text: string) | Warn

  const AUTH_KEY: string := "auth.state"

  /** The parts of the application state that hold the sign-in state. */
  class AppState {
    var auth: AuthState
    var kv: map<string, string>
    var events: seq<Event>
    const paired: bool

    /** Opening over a stored table. */
    constructor (paired: bool, kv: map<string, string>)
      ensures this.paired == paired && this.kv == kv && events == []
      ensures auth == Restore(paired, if AUTH_KEY in kv then Some(kv[AUTH_KEY]) else None)
    {
      this.paired := paired;
      this.kv := kv;
      events := [];
      auth := Restore(paired, if AUTH_KEY in kv then Some(kv[AUTH_KEY]) else None);
    }

    /** The memory state always changes; the saved label only if the write succeeds, with a warning otherwise. */
    method SetAuth(state: AuthState, write: Outcome)
      modifies this
      ensures auth == state
      ensures kv == if write == Ok then old(kv)[AUTH_KEY := Label(state)] else old(kv)
      ensures events == old(events) + (if write == Ok then [] else [Warn]) + [AuthStateChanged(Label(state))]
    {
      var text := Label(state);
      auth := state;
      if write == Ok {
        kv := kv[AUTH_KEY := text];
      } else {
        events := events + [Warn];
      }
      events := events + [AuthStateChanged(text)];
    }
  }

  /** A state set, saved and reopened on a paired device is the state set, exactly under the round-trip condition. */
  method SetThenReopen(app: AppState, state: AuthState) returns (reopened: AppState)
    requires app.paired
    modifies app
    ensures reopened.auth == state <==> state != NeedsHardwarePairing && !RepeatsItsPrefix(state)
    ensures reopened.paired && reopened.kv == app.kv
  {
    app.SetAuth(state, Ok);
    RoundTripExactly(state);
    reopened := new AppState(true, app.kv);
  }
}
