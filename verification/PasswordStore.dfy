/**
 The access password as the client keeps it: encrypted under the Pid in the options file, and in clear
 text in memory once it has been decrypted (internal/pkg/processor/common.go, handlers.go).
 */
module PasswordStore {
  import opened Utf8
  import opened PasswordCodec

  const LENGTH_PASS := 6

  /** `pid` comes from the server, `pass` is persisted, `clean` is only cached. */
  datatype Account = Account(pid: seq<byte>, pass: seq<byte>, clean: seq<byte>)

  datatype Outcome = Panicked | Returned(pass: seq<byte>)

  // Some text as the generator draws it, encrypted under the Pid with some padding.
  ghost predicate Holds(pass: seq<byte>, text: seq<byte>, pid: seq<byte>)
    requires pid != []
  {
    exists salt :: IsRandomString(salt, SaltLength(text, pid)) && pass == Encrypted(text, pid, salt)
  }

  // Nothing stored, or something that was not encrypted under this Pid.
  predicate Unreadable(pass: seq<byte>, pid: seq<byte>) {
    pass == [] || (Decrypted(pass, pid).Answer? && !Decrypted(pass, pid).ok)
  }

  // Without a Pid nobody may guess the password: three stars and two random letters.
  predicate IsPlaceholder(text: seq<byte>) {
    |text| == 5 && text[..3] == ['*' as int, '*' as int, '*' as int] && IsRandomString(text[3..], 2)
  }

  /** Three stars and two of the letters from A to Y. */
  predicate IsStarred(text: seq<byte>) {
    |text| == 5 && text[0] == 42 && text[1] == 42 && text[2] == 42 && 65 <= text[3] < 90 && 65 <= text[4] < 90
  }

  /** One call of GetPass. */
  ghost predicate Gets(a: Account, b: Account, r: Outcome) {
    if a.pid == [] then
      b == a && r.Returned? && IsPlaceholder(r.pass)
    else if a.clean != [] then
      b == a && r == Returned(a.clean)
    else if Unreadable(a.pass, a.pid) then
      && r.Returned? && IsRandomString(r.pass, LENGTH_PASS)
      && b == a.(pass := b.pass, clean := r.pass) && Holds(b.pass, r.pass, a.pid)
    else
      match Decrypted(a.pass, a.pid)
      case Panic => b == a && r == Panicked
      case Answer(text, _) => b == a.(clean := text) && r == Returned(text)
  }

  /** One call of SetPass. */
  ghost predicate Sets(a: Account, b: Account, text: seq<byte>, r: Outcome) {
    if a.pid == [] then b == a.(clean := text) && r == Panicked
    else Holds(b.pass, text, a.pid) && b == a.(pass := b.pass, clean := text) && r == Returned(text)
  }

  /** The answer to an authorisation gives the Pid, a first password if there is none, and shows it. */
  ghost predicate Authorises(a: Account, b: Account, pid: seq<byte>, r: Outcome) {
    var c := a.(pid := pid);
    if a.pass != [] then Gets(c, b, r)
    else if pid == [] then b == c && r == Panicked
    else exists text, pass ::
      IsRandomString(text, LENGTH_PASS) && Holds(pass, text, pid) && Gets(c.(pass := pass), b, r)
  }

  // "*****" and "random"
  const HIDDEN: seq<byte> := ['*' as int, '*' as int, '*' as int, '*' as int, '*' as int]
  const RANDOM: seq<byte> := ['r' as int, 'a' as int, 'n' as int, 'd' as int, 'o' as int, 'm' as int]

  /** The local panel may set a password, or ask for a random one, before it is shown one. */
  ghost predicate ShowsLocally(a: Account, b: Account, messages: seq<seq<byte>>, r: Outcome) {
    if messages == [] then Gets(a, b, r)
    else exists text, c, s ::
      && (if messages[0] == RANDOM then IsRandomString(text, LENGTH_PASS) else text == messages[0])
      && Sets(a, c, text, s)
      && if s.Panicked? then b == c && r == s else Gets(c, b, r)
  }

  /** Six of the letters from A to Y. */
  predicate IsDrawn(text: seq<byte>) {
    |text| == 6 && forall i :: 0 <= i < 6 ==> 65 <= text[i] < 90
  }

  datatype Request = Request(digest: seq<byte>, salt: seq<byte>, isServer: bool)

  ghost predicate Checks(a: Account, b: Account, sha: seq<byte> -> seq<byte>, q: Request, accepted: bool, r: Outcome) {
    && Gets(a, b, r)
    && (accepted <==> r.Returned? && (!q.isServer || sha(r.pass + q.salt) == q.digest))
  }

  lemma FreshDecrypts(text: seq<byte>, pid: seq<byte>, salt: seq<byte>)
    requires pid != [] && IsRandomString(text, LENGTH_PASS)
    requires IsRandomString(salt, SaltLength(text, pid))
    ensures Encrypted(text, pid, salt) != []
    ensures Holds(Encrypted(text, pid, salt), text, pid)
    ensures Decrypted(Encrypted(text, pid, salt), pid) == Answer(text, true)
  {
    hide Encrypted, Decrypted, SaltLength;
    EncryptedShape(text, pid, salt);
    RoundTrip(text, pid, salt);
  }

  class Store {
    var pid: seq<byte>
    var pass: seq<byte>
    var cleanPass: seq<byte>

    ghost function Value(): Account
      reads this
    {
      Account(pid, pass, cleanPass)
    }

    constructor (stored: seq<byte>)
      ensures Value() == Account([], stored, [])
    {
      pid, pass, cleanPass := [], stored, [];
    }

    /** The loop needs two rounds at most: what the first one generates is decrypted by the second. */
    method GetPass() returns (r: Outcome, ghost rounds: nat)
      modifies this`pass, this`cleanPass
      ensures Gets(old(Value()), Value(), r)
      ensures pid == [] ==> Value() == old(Value()) && r.Returned? && IsStarred(r.pass)
      ensures 1 <= rounds <= 2
    {
      hide Encrypted, Decrypted, SaltLength;
      rounds := 1;
      ghost var drawn: seq<byte> := [];
      while true
        invariant pid == old(pid) && cleanPass == old(cleanPass)
        invariant rounds in {1, 2}
        invariant rounds == 1 ==> pass == old(pass)
        invariant rounds == 2 ==> pid != [] && cleanPass == [] && Unreadable(old(pass), pid)
        invariant rounds == 2 ==> IsRandomString(drawn, LENGTH_PASS) && Holds(pass, drawn, pid)
        invariant rounds == 2 ==> pass != [] && Decrypted(pass, pid) == Answer(drawn, true)
        decreases 2 - rounds
      {
        if pid == [] {
          var noise := RandomString(2);
          return Returned(['*' as int, '*' as int, '*' as int] + noise), rounds;
        }
        if cleanPass != [] {
          return Returned(cleanPass), rounds;
        }
        if pass != [] {
          var d := DecXOR(pass, pid);
          if d.Panic? {
            return Panicked, rounds;
          }
          if d.ok {
            cleanPass := d.text;
            return Returned(d.text), rounds;
          }
        }
        var text := RandomString(LENGTH_PASS);
        ghost var salt;
        pass, salt := EncXOR(text, pid);
        FreshDecrypts(text, pid, salt);
        drawn, rounds := text, rounds + 1;
      }
    }

    method SetPass(text: seq<byte>) returns (r: Outcome)
      modifies this`pass, this`cleanPass
      ensures Sets(old(Value()), Value(), text, r)
    {
      cleanPass := text;
      if pid == [] {
        return Panicked;  // division by the length of an empty key
      }
      ghost var salt;
      pass, salt := EncXOR(text, pid);
      r := Returned(text);
    }

    method ProcessAuth(messages: seq<seq<byte>>) returns (shown: Outcome)
      modifies this
      ensures |messages| < 2 ==> Value() == old(Value())
      ensures |messages| >= 2 ==> pid == messages[0] && Authorises(old(Value()), Value(), messages[0], shown)
      ensures |messages| >= 2 && messages[0] != [] && old(pass) == [] && old(cleanPass) == [] ==>
                shown.Returned? && IsDrawn(shown.pass)
    {
      hide Encrypted, Decrypted, SaltLength;
      if |messages| < 2 {
        return Returned([]);
      }
      pid := messages[0];
      if pass == [] {
        if pid == [] {
          return Panicked;
        }
        var text := RandomString(LENGTH_PASS);
        ghost var salt;
        pass, salt := EncXOR(text, pid);
        assert Holds(pass, text, pid);
        FreshDecrypts(text, pid, salt);
      }
      ghost var rounds;
      shown, rounds := GetPass();
    }

    /** While somebody is connected the password is not shown and cannot be changed. */
    method ProcessLocalInfo(messages: seq<seq<byte>>, connected: int) returns (shown: Outcome)
      modifies this`pass, this`cleanPass
      ensures connected > 0 ==> Value() == old(Value()) && shown == Returned([42, 42, 42, 42, 42])
      ensures connected <= 0 ==> ShowsLocally(old(Value()), Value(), messages, shown)
      ensures connected <= 0 && pid != [] && messages != [] ==>
                if messages[0] == [114, 97, 110, 100, 111, 109] then
                  shown.Returned? && IsDrawn(shown.pass) && cleanPass == shown.pass
                else messages[0] != [] ==>
                  shown == Returned(messages[0]) && cleanPass == messages[0]
      ensures connected <= 0 && pid != [] && messages == [] && old(cleanPass) == [] && old(pass) != [] ==>
                match Decrypted(old(pass), pid)
                case Answer(text, true) => shown == Returned(text) && cleanPass == text && pass == old(pass)
                case _ => true
      ensures connected <= 0 && pid == [] && messages != [] ==> shown.Panicked?
    {
      hide Encrypted, Decrypted, SaltLength, Holds;
      if connected > 0 {
        return Returned(HIDDEN);
      }
      if messages != [] {
        var text := messages[0];
        if text == RANDOM {
          text := RandomString(LENGTH_PASS);
        }
        shown := SetPass(text);
        if shown.Panicked? {
          return;
        }
      }
      ghost var rounds;
      shown, rounds := GetPass();
    }

    /** Whether a request to connect passes the digest test; only who serves the picture is protected. */
    method ProcessConnect(sha: seq<byte> -> seq<byte>, digest: seq<byte>, salt: seq<byte>, isServer: bool)
      returns (accepted: bool, ghost checked: Outcome)
      modifies this`pass, this`cleanPass
      ensures Checks(old(Value()), Value(), sha, Request(digest, salt, isServer), accepted, checked)
    {
      var r;
      ghost var rounds;
      r, rounds := GetPass();
      checked := r;
      if r.Panicked? {
        return false, r;
      }
      if sha(r.pass + salt) != digest && isServer {
        return false, r;
      }
      accepted := true;
    }
  }

  // ---------------------------------------------------------------- runs

  /** A panic in a handler or in `main` ends the process; only the options file survives. */
  function Restarted(a: Account): (b: Account) {
    Account([], a.pass, [])
  }

  datatype Event =
    | Get(r: Outcome)
    | Set(text: seq<byte>, r: Outcome)
    | Auth(pid: seq<byte>, r: Outcome)
    | Local(messages: seq<seq<byte>>, connected: int, r: Outcome)
    | Connect(request: Request, accepted: bool, r: Outcome)
    | Reset
    | Restart

  // What the handler of an event does as long as the process lives.
  ghost predicate Handles(sha: seq<byte> -> seq<byte>, a: Account, e: Event, b: Account) {
    match e
    case Get(r) => Gets(a, b, r)
    case Set(text, r) => Sets(a, b, text, r)
    case Auth(pid, r) => Authorises(a, b, pid, r)
    case Local(messages, connected, r) =>
      if connected > 0 then b == a && r == Returned(HIDDEN) else ShowsLocally(a, b, messages, r)
    case Connect(request, accepted, r) => Checks(a, b, sha, request, accepted, r)
    case Reset => b == a.(pass := [], clean := [])
    case Restart => b == Restarted(a)
  }

  predicate Panics(e: Event) {
    !e.Reset? && !e.Restart? && e.r.Panicked?
  }

  ghost predicate Step(sha: seq<byte> -> seq<byte>, a: Account, e: Event, b: Account) {
    exists c :: Handles(sha, a, e, c) && b == if Panics(e) then Restarted(c) else c
  }

  /** A run in which the server always assigns the same Pid and only passwords the codec carries are set. */
  ghost predicate IsRun(sha: seq<byte> -> seq<byte>, pid: seq<byte>, run: seq<Account>, events: seq<Event>) {
    && pid != [] && |run| == |events| + 1
    && Coherent(run[0], pid)
    && forall i :: 0 <= i < |events| ==> Step(sha, run[i], events[i], run[i + 1]) && Admissible(events[i], pid)
  }

  predicate Admissible(e: Event, pid: seq<byte>) {
    match e
    case Set(text, _) => Ascii(text) && |text| <= 127
    case Auth(p, _) => p == pid
    case Local(messages, _, _) => messages != [] ==> Ascii(messages[0]) && |messages[0]| <= 127
    case _ => true
  }

  // A request of a panel that sets a password first.
  predicate SetsLocally(e: Event) {
    e.Local? && e.connected <= 0 && e.messages != []
  }

  // The password may be another one afterwards.
  predicate Changes(e: Event) {
    e.Set? || e.Reset? || SetsLocally(e)
  }

  /** A cached password is what the stored one decrypts to. */
  predicate Coherent(a: Account, pid: seq<byte>) {
    && (a.pid == [] || a.pid == pid)
    && (a.clean != [] ==> a.pass != [] && Decrypted(a.pass, pid) == Answer(a.clean, true))
  }

  /** The stored password decrypts to `text`, in this process and in any later one. */
  predicate Stores(a: Account, pid: seq<byte>, text: seq<byte>) {
    Coherent(a, pid) && a.pass != [] && Decrypted(a.pass, pid) == Answer(text, true)
  }

  lemma HoldsDecrypts(pass: seq<byte>, text: seq<byte>, pid: seq<byte>)
    requires pid != [] && Ascii(text) && |text| <= 127 && Holds(pass, text, pid)
    ensures pass != [] && Decrypted(pass, pid) == Answer(text, true)
  {
    hide Encrypted, Decrypted, SaltLength;
    var salt :| IsRandomString(salt, SaltLength(text, pid)) && pass == Encrypted(text, pid, salt);
    EncryptedShape(text, pid, salt);
    RoundTrip(text, pid, salt);
  }

  lemma GetsKeeps(a: Account, b: Account, r: Outcome, pid: seq<byte>)
    requires pid != [] && Coherent(a, pid) && Gets(a, b, r)
    ensures Coherent(b, pid)
    ensures a.pid == pid && r.Returned? ==> Stores(b, pid, r.pass)
    ensures forall text :: Stores(a, pid, text) ==> Stores(b, pid, text)
    ensures forall text :: Stores(a, pid, text) && a.pid == pid ==> r == Returned(text)
  {
    hide Decrypted, Holds;
    if a.pid != [] && a.clean == [] && Unreadable(a.pass, a.pid) {
      HoldsDecrypts(b.pass, r.pass, pid);
    }
  }

  lemma AuthorisesKeeps(a: Account, b: Account, r: Outcome, pid: seq<byte>)
    requires pid != [] && Coherent(a, pid) && Authorises(a, b, pid, r)
    ensures Coherent(b, pid)
    ensures r.Returned? ==> Stores(b, pid, r.pass)
    ensures forall text :: Stores(a, pid, text) ==> Stores(b, pid, text) && r == Returned(text)
  {
    hide Decrypted, Holds, Gets;
    var c := a.(pid := pid);
    if a.pass == [] {
      var text, pass :| IsRandomString(text, LENGTH_PASS) && Holds(pass, text, pid) && Gets(c.(pass := pass), b, r);
      GetsKeeps(c.(pass := pass), b, r, pid);
    } else {
      GetsKeeps(c, b, r, pid);
    }
  }

  lemma LocalKeeps(a: Account, b: Account, messages: seq<seq<byte>>, r: Outcome, pid: seq<byte>)
    requires pid != [] && Coherent(a, pid) && ShowsLocally(a, b, messages, r)
    requires messages != [] ==> Ascii(messages[0]) && |messages[0]| <= 127
    ensures r.Returned? ==> Coherent(b, pid)
    ensures Coherent(if r.Panicked? then Restarted(b) else b, pid)
    ensures a.pid == pid && r.Returned? ==> Stores(b, pid, r.pass)
    ensures messages == [] ==> forall text :: Stores(a, pid, text) ==> Stores(b, pid, text)
    ensures messages == [] && a.pid == pid ==> forall text :: Stores(a, pid, text) ==> r == Returned(text)
    ensures messages != [] && r.Returned? && messages[0] != RANDOM ==> r == Returned(messages[0])
    ensures messages != [] && r.Returned? ==> a.pid == pid
  {
    hide Decrypted, Holds, Gets;
    if messages == [] {
      GetsKeeps(a, b, r, pid);
    } else {
      var text, c, s :|
        && (if messages[0] == RANDOM then IsRandomString(text, LENGTH_PASS) else text == messages[0])
        && Sets(a, c, text, s)
        && if s.Panicked? then b == c && r == s else Gets(c, b, r);
      if s.Returned? {
        HoldsDecrypts(c.pass, text, pid);
        GetsKeeps(c, b, r, pid);
        assert Stores(c, pid, text);
      }
    }
  }

  /** Every event keeps the cache coherent, and only SetPass and a reset of the options change what is stored. */
  lemma StepKeeps(sha: seq<byte> -> seq<byte>, a: Account, e: Event, b: Account, pid: seq<byte>)
    requires pid != [] && Coherent(a, pid) && Step(sha, a, e, b) && Admissible(e, pid)
    ensures Coherent(b, pid)
    ensures !Changes(e) ==> forall text :: Stores(a, pid, text) ==> Stores(b, pid, text)
    ensures e.Set? && e.r.Returned? ==> Stores(b, pid, e.text)
    ensures SetsLocally(e) && e.r.Returned? ==> Stores(b, pid, e.r.pass)
  {
    hide Decrypted, Holds, Gets, Authorises, ShowsLocally;
    var c :| Handles(sha, a, e, c) && b == if Panics(e) then Restarted(c) else c;
    match e
    case Get(r) => GetsKeeps(a, c, r, pid);
    case Connect(_, _, r) => GetsKeeps(a, c, r, pid);
    case Auth(_, r) => AuthorisesKeeps(a, c, r, pid);
    case Set(text, r) => if r.Returned? { HoldsDecrypts(c.pass, text, pid); }
    case Local(messages, connected, r) => if connected <= 0 { LocalKeeps(a, c, messages, r, pid); }
    case _ =>
  }

  lemma {:induction false} RunCoherent(sha: seq<byte> -> seq<byte>, pid: seq<byte>,
                                       run: seq<Account>, events: seq<Event>, n: nat)
    requires IsRun(sha, pid, run, events) && n < |run|
    ensures Coherent(run[n], pid)
  {
    hide Coherent, Step;
    if n > 0 {
      RunCoherent(sha, pid, run, events, n - 1);
      assert Step(sha, run[n - 1], events[n - 1], run[n - 1 + 1]);
      StepKeeps(sha, run[n - 1], events[n - 1], run[n], pid);
    }
  }

  lemma {:induction false} RunStores(sha: seq<byte> -> seq<byte>, pid: seq<byte>, run: seq<Account>, events: seq<Event>,
                                     m: nat, n: nat, text: seq<byte>)
    requires IsRun(sha, pid, run, events) && m <= n < |run|
    requires Stores(run[m], pid, text)
    requires forall i :: m <= i < n ==> !Changes(events[i])
    ensures Stores(run[n], pid, text)
    decreases n - m
  {
    hide Coherent, Stores, Step;
    if m < n {
      RunCoherent(sha, pid, run, events, m);
      assert Step(sha, run[m], events[m], run[m + 1]);
      StepKeeps(sha, run[m], events[m], run[m + 1], pid);
      RunStores(sha, pid, run, events, m + 1, n, text);
    }
  }

  // The password an event fixes: the one it shows with a Pid at hand, or the one it sets.
  function Fixed(a: Account, e: Event): (text: seq<seq<byte>>)
    ensures |text| <= 1
  {
    match e
    case Get(Returned(text)) => if a.pid == [] then [] else [text]
    case Set(text, Returned(_)) => [text]
    case Auth(_, Returned(text)) => [text]
    case Local(_, connected, Returned(text)) => if connected > 0 || a.pid == [] then [] else [text]
    case _ => []
  }

  lemma FixedStores(sha: seq<byte> -> seq<byte>, a: Account, e: Event, b: Account, pid: seq<byte>)
    requires pid != [] && Coherent(a, pid) && Step(sha, a, e, b) && Admissible(e, pid) && Fixed(a, e) != []
    ensures Stores(b, pid, Fixed(a, e)[0])
  {
    hide Decrypted, Holds, Gets, Authorises, ShowsLocally;
    StepKeeps(sha, a, e, b, pid);
    match e
    case Get(r) => GetsKeeps(a, b, r, pid);
    case Auth(_, r) => AuthorisesKeeps(a, b, r, pid);
    case Local(messages, _, r) => LocalKeeps(a, b, messages, r, pid);
    case _ =>
  }

  /**
   The password shown or set at step `m` is the one every later step works with, across restarts and
   renewed authorisations, until it is set again or the options are reset: GetPass returns it, and a
   request to connect is let in exactly when its digest was computed from it.
   */
  lemma ShownIsChecked(sha: seq<byte> -> seq<byte>, pid: seq<byte>,
                       run: seq<Account>, events: seq<Event>, m: nat, n: nat)
    requires IsRun(sha, pid, run, events) && m < n < |events|
    requires Fixed(run[m], events[m]) != []
    requires forall i :: m < i <= n ==> !Changes(events[i])
    requires run[n].pid != [] || events[n].Auth?
    ensures var text := Fixed(run[m], events[m])[0];
            match events[n]
            case Get(r) => r == Returned(text)
            case Auth(_, r) => r == Returned(text)
            case Local(_, connected, r) => r == Returned(if connected > 0 then [42, 42, 42, 42, 42] else text)
            case Connect(q, accepted, _) => accepted <==> !q.isServer || sha(text + q.salt) == q.digest
            case _ => true
  {
    hide Coherent, Stores, Gets, Authorises, ShowsLocally;
    RunCoherent(sha, pid, run, events, m);
    assert Step(sha, run[m], events[m], run[m + 1]);
    FixedStores(sha, run[m], events[m], run[m + 1], pid);
    var text := Fixed(run[m], events[m])[0];
    RunStores(sha, pid, run, events, m + 1, n, text);
    RunCoherent(sha, pid, run, events, n);
    Uses(sha, run[n], events[n], run[n + 1], pid, text);
  }

  lemma Uses(sha: seq<byte> -> seq<byte>, a: Account, e: Event, b: Account, pid: seq<byte>, text: seq<byte>)
    requires pid != [] && Coherent(a, pid) && Stores(a, pid, text) && Step(sha, a, e, b) && Admissible(e, pid)
    requires (a.pid != [] || e.Auth?) && !Changes(e)
    ensures match e
            case Get(r) => r == Returned(text)
            case Auth(_, r) => r == Returned(text)
            case Local(_, connected, r) => r == Returned(if connected > 0 then HIDDEN else text)
            case Connect(q, accepted, _) => accepted <==> !q.isServer || sha(text + q.salt) == q.digest
            case _ => true
  {
    hide Decrypted, Holds, Gets, Authorises, ShowsLocally;
    var c :| Handles(sha, a, e, c) && b == if Panics(e) then Restarted(c) else c;
    match e
    case Get(r) => GetsKeeps(a, c, r, pid);
    case Connect(_, _, r) => GetsKeeps(a, c, r, pid);
    case Auth(_, r) => AuthorisesKeeps(a, c, r, pid);
    case Local(messages, connected, r) => if connected <= 0 { LocalKeeps(a, c, messages, r, pid); }
    case _ =>
  }

  /** A reset forgets the password: the next one is drawn. */
  lemma ResetDraws(sha: seq<byte> -> seq<byte>, a: Account, b: Account, c: Account, r: Outcome)
    requires Step(sha, a, Reset, b) && Step(sha, b, Get(r), c)
    ensures b == Account(a.pid, [], [])
    ensures a.pid != [] ==> r.Returned? && IsDrawn(r.pass) && c.clean == r.pass
  {
    hide Holds, Decrypted;
  }

  /**
   Before the Pid is known every request is answered and checked with three stars and two letters, so never
   with a password of another shape, cached or stored; a panel cannot set one then.
   */
  lemma StarredBeforePid(sha: seq<byte> -> seq<byte>, a: Account, e: Event, b: Account)
    requires a.pid == [] && Step(sha, a, e, b)
    ensures match e
            case Get(r) => r.Returned? && IsStarred(r.pass) && (!IsStarred(a.clean) ==> r.pass != a.clean) && b == a
            case Connect(q, accepted, r) =>
              && r.Returned? && IsStarred(r.pass) && (!IsStarred(a.clean) ==> r.pass != a.clean) && b == a
              && (accepted <==> !q.isServer || sha(r.pass + q.salt) == q.digest)
            case Local(messages, connected, r) =>
              if connected > 0 then b == a
              else if messages == [] then r.Returned? && IsStarred(r.pass) && b == a
              else r.Panicked?
            case _ => true
  {
    hide Holds, Unreadable, Decrypted;
    var c :| Handles(sha, a, e, c) && b == if Panics(e) then Restarted(c) else c;
  }

  // ---------------------------------------------------------------- passwords the codec does not carry

  // What ends the life of a cached password; an authorisation without a Pid would hide it.
  predicate LeavesCache(e: Event) {
    !Changes(e) && !e.Restart? && (e.Auth? ==> e.pid != [])
  }

  lemma CachedStep(sha: seq<byte> -> seq<byte>, a: Account, e: Event, b: Account)
    requires a.pid != [] && a.clean != [] && Step(sha, a, e, b) && LeavesCache(e)
    ensures b.pid != [] && b.clean == a.clean
    ensures match e
            case Get(r) => r == Returned(a.clean)
            case Auth(_, r) => r == Returned(a.clean)
            case Local(_, connected, r) => r == Returned(if connected > 0 then HIDDEN else a.clean)
            case Connect(q, accepted, _) => accepted <==> !q.isServer || sha(a.clean + q.salt) == q.digest
            case _ => true
  {
    hide Holds, Unreadable, IsPlaceholder;
    var c :| Handles(sha, a, e, c) && b == if Panics(e) then Restarted(c) else c;
  }

  lemma {:induction false} CacheStays(sha: seq<byte> -> seq<byte>,
                                      run: seq<Account>, events: seq<Event>, m: nat, n: nat)
    requires |run| == |events| + 1 && m <= n < |run|
    requires forall i :: m <= i < n ==> Step(sha, run[i], events[i], run[i + 1]) && LeavesCache(events[i])
    requires run[m].pid != [] && run[m].clean != []
    ensures run[n].pid != [] && run[n].clean == run[m].clean
    decreases n - m
  {
    hide Step;
    if m < n {
      CacheStays(sha, run, events, m, n - 1);
      CachedStep(sha, run[n - 1], events[n - 1], run[n - 1 + 1]);
    }
  }

  // The text that an event sets, by the client itself or for a panel that named it.
  function SetText(e: Event): (text: seq<byte>) {
    match e
    case Set(text, Returned(_)) => text
    case Local(messages, connected, Returned(_)) =>
      if connected <= 0 && messages != [] && messages[0] != [114, 97, 110, 100, 111, 109] then messages[0] else []
    case _ => []
  }

  /**
   Any password works from the cache, whatever it consists of, until it is set again, the options are reset
   or the process ends: GetPass returns it and requests are checked against it. Nothing panics meanwhile.
   */
  lemma WorksUntilTheEnd(sha: seq<byte> -> seq<byte>, run: seq<Account>, events: seq<Event>, m: nat, n: nat)
    requires |run| == |events| + 1 && m < n < |events|
    requires forall i :: m <= i <= n ==> Step(sha, run[i], events[i], run[i + 1])
    requires SetText(events[m]) != []
    requires forall i :: m < i <= n ==> LeavesCache(events[i])
    ensures !Panics(events[n])
    ensures var text := SetText(events[m]);
            match events[n]
            case Get(r) => r == Returned(text)
            case Auth(_, r) => r == Returned(text)
            case Local(_, connected, r) => r == Returned(if connected > 0 then [42, 42, 42, 42, 42] else text)
            case Connect(q, accepted, _) => accepted <==> !q.isServer || sha(text + q.salt) == q.digest
            case _ => true
  {
    SetCaches(sha, run[m], events[m], run[m + 1]);
    hide Step;
    CacheStays(sha, run, events, m + 1, n);
    CachedStep(sha, run[n], events[n], run[n + 1]);
    NoPanic(sha, run[n], events[n], run[n + 1]);
  }

  lemma SetCaches(sha: seq<byte> -> seq<byte>, a: Account, e: Event, b: Account)
    requires Step(sha, a, e, b) && SetText(e) != []
    ensures b.pid != [] && b.clean == SetText(e)
  {
    hide Holds, IsRandomString, Unreadable;
    var c :| Handles(sha, a, e, c) && b == if Panics(e) then Restarted(c) else c;
  }

  lemma NoPanic(sha: seq<byte> -> seq<byte>, a: Account, e: Event, b: Account)
    requires a.pid != [] && a.clean != [] && Step(sha, a, e, b) && LeavesCache(e)
    ensures !Panics(e)
  {
    hide Holds, Unreadable, IsPlaceholder;
    var c :| Handles(sha, a, e, c) && b == if Panics(e) then Restarted(c) else c;
  }

  // After a restart with a password that does not decrypt to `text`, GetPass may return something else.
  lemma ReturnsAnother(a: Account, text: seq<byte>) returns (b: Account, q: Outcome)
    requires a.pid != [] && a.clean == [] && a.pass != [] && Decrypted(a.pass, a.pid) != Answer(text, true)
    ensures Gets(a, b, q) && q != Returned(text)
  {
    hide Encrypted, Decrypted, SaltLength;
    if Unreadable(a.pass, a.pid) {
      var c: byte := if text == seq(LENGTH_PASS, _ => 'A' as int) then 'B' as int else 'A' as int;
      var drawn := seq(LENGTH_PASS, _ => c);
      assert drawn[0] == c;
      var salt := SomeSalt(SaltLength(drawn, a.pid));
      b, q := a.(pass := Encrypted(drawn, a.pid, salt), clean := drawn), Returned(drawn);
      assert Holds(b.pass, drawn, a.pid);
    } else {
      match Decrypted(a.pass, a.pid)
      case Panic => b, q := a, Panicked;
      case Answer(other, _) => b, q := a.(clean := other), Returned(other);
    }
  }

  lemma RestartedGets(c: Account, b: Account, pid: seq<byte>, q: Outcome)
    requires c.pass != []
    ensures Authorises(Restarted(c), b, pid, q) <==> Gets(Account(pid, c.pass, []), b, q)
  {
    hide Gets, Holds;
  }

  /**
   Exactly which passwords are still the password after the process was restarted and authorised again,
   whatever padding SetPass drew: those the codec carries.
   */
  lemma SurvivesRestartExactly(a: Account, rs: seq<rune>)
    requires a.pid != []
    ensures (forall c, r, b, q :: Sets(a, c, Encode(rs), r) && Authorises(Restarted(c), b, a.pid, q)
              ==> q == Returned(Encode(rs)))
            <==> Ascii(Encode(rs)) && |Encode(rs)| <= 127
  {
    hide Encrypted, Decrypted, SaltLength, Encode, Authorises, Gets, Ascii;
    var text := Encode(rs);
    if Ascii(text) && |text| <= 127 {
      forall c, r, b, q | Sets(a, c, text, r) && Authorises(Restarted(c), b, a.pid, q) ensures q == Returned(text) {
        HoldsDecrypts(c.pass, text, a.pid);
        RestartedGets(c, b, a.pid, q);
        DecryptsGets(Account(a.pid, c.pass, []), b, q, text);
      }
    } else {
      RoundTripExactly(rs, a.pid);
      var salt :| IsRandomString(salt, SaltLength(text, a.pid))
               && Decrypted(Encrypted(text, a.pid, salt), a.pid) != Answer(text, true);
      var c := a.(pass := Encrypted(text, a.pid, salt), clean := text);
      assert Holds(c.pass, text, a.pid);
      EncryptedShape(text, a.pid, salt);
      var b, q := ReturnsAnother(Account(a.pid, c.pass, []), text);
      RestartedGets(c, b, a.pid, q);
      assert Sets(a, c, text, Returned(text)) && Authorises(Restarted(c), b, a.pid, q);
    }
  }

  lemma DecryptsGets(a: Account, b: Account, q: Outcome, text: seq<byte>)
    requires a.pid != [] && a.clean == [] && a.pass != [] && Decrypted(a.pass, a.pid) == Answer(text, true)
      && Gets(a, b, q)
    ensures q == Returned(text)
  {
    hide Decrypted, Holds;
  }
}
