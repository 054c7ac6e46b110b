/** The verification links and codes of internal/plugin/verification: one stored secret
    per address, good for one use before it expires. */
module OneTimeStore {
  import opened Common
  import opened Base64Url

  datatype Secret = Secret(text: string, expiredAt: int)

  type Secrets = map<string, Secret>

  datatype VerifyError = NotFound | Expired | Mismatch | BadFormat

  /** A link's text carries a session id behind a dot; a code carries nothing. */
  datatype Kind = Link | Code

  /** What a text that matched gives back. */
  function Payload(kind: Kind, text: string): Option<string> {
    match kind
    case Code => Some("")
    case Link =>
      var parts := Split(text, '.');
      if |parts| == 2 then Some(parts[1]) else None
  }

  /** Verify of either manager. An expired secret is dropped, a used one too; one whose
      text matches but has no session id in it stays. */
  function Verify(kind: Kind, s: Secrets, now: int, to: string, text: string): (Secrets, Result<string, VerifyError>) {
    if to !in s then (s, Err(NotFound))
    else if now > s[to].expiredAt then (s - {to}, Err(Expired))
    else if s[to].text != text then (s, Err(Mismatch))
    else
      match Payload(kind, text)
      case None => (s, Err(BadFormat))
      case Some(p) => (s - {to}, Ok(p))
  }

  /** What IsValid answers. */
  predicate Valid(s: Secrets, now: int, to: string) {
    to in s && now <= s[to].expiredAt
  }

  /** An address is valid exactly when some text would be accepted for it, or when what is
      stored is a link whose session id has a dot. */
  lemma ValidExactly(kind: Kind, s: Secrets, now: int, to: string)
    ensures Valid(s, now, to) <==>
            || (exists text :: Verify(kind, s, now, to, text).1.Ok?)
            || (exists text :: Verify(kind, s, now, to, text).1 == Err(BadFormat))
  {
    if Valid(s, now, to) {
      var r := Verify(kind, s, now, to, s[to].text).1;
      assert r.Ok? || r == Err(BadFormat);
    }
  }

  // ---------- runs ----------

  datatype Event =
    | DoStore(at: int, to: string, text: string, lifetime: int)
    | DoVerify(at: int, to: string, text: string)

  function Step(kind: Kind, s: Secrets, e: Event): Secrets {
    match e
    case DoStore(at, to, text, life) => s[to := Secret(text, at + life)]
    case DoVerify(at, to, text) => Verify(kind, s, at, to, text).0
  }

  function After(kind: Kind, run: seq<Event>, n: nat): Secrets
    requires n <= |run|
  {
    if n == 0 then map[] else Step(kind, After(kind, run, n - 1), run[n - 1])
  }

  ghost predicate Accepts(kind: Kind, run: seq<Event>, i: nat, to: string)
    requires i < |run|
  {
    run[i].DoVerify? && run[i].to == to && Verify(kind, After(kind, run, i), run[i].at, to, run[i].text).1.Ok?
  }

  ghost predicate Stores(run: seq<Event>, i: nat, to: string)
    requires i < |run|
  {
    run[i].DoStore? && run[i].to == to
  }

  /** Event i stored for this address, and up to n nothing newer was stored for it and
      nothing was accepted for it. */
  ghost predicate Outstanding(kind: Kind, run: seq<Event>, i: nat, n: nat, to: string)
    requires n <= |run|
  {
    i < n && Stores(run, i, to) && forall k :: i < k < n ==> !Stores(run, k, to) && !Accepts(kind, run, k, to)
  }

  lemma {:induction false} StoredIsOutstanding(kind: Kind, run: seq<Event>, n: nat, to: string) returns (i: nat)
    requires n <= |run| && to in After(kind, run, n)
    ensures Outstanding(kind, run, i, n, to)
    ensures After(kind, run, n)[to] == Secret(run[i].text, run[i].at + run[i].lifetime)
  {
    if Stores(run, n - 1, to) {
      i := n - 1;
    } else {
      i := StoredIsOutstanding(kind, run, n - 1, to);
    }
  }

  /** Whatever is accepted was stored for that address, has not expired, is the newest
      stored there, and has not been accepted before. */
  lemma AcceptedOnceInTime(kind: Kind, run: seq<Event>, j: nat, to: string) returns (i: nat)
    requires j < |run| && Accepts(kind, run, j, to)
    ensures Outstanding(kind, run, i, j, to)
    ensures run[j].text == run[i].text && run[j].at <= run[i].at + run[i].lifetime
  {
    i := StoredIsOutstanding(kind, run, j, to);
  }

  /** Two acceptances for one address have a new secret stored between them. */
  lemma StoredBetweenAcceptances(kind: Kind, run: seq<Event>, i: nat, j: nat, to: string) returns (k: nat)
    requires i < j < |run| && Accepts(kind, run, i, to) && Accepts(kind, run, j, to)
    ensures i < k < j && Stores(run, k, to) && run[k].text == run[j].text
  {
    k := AcceptedOnceInTime(kind, run, j, to);
    if k <= i {
      assert false;
    }
  }

  ghost predicate Clocked(run: seq<Event>) {
    forall i, j :: 0 <= i < j < |run| ==> run[i].at <= run[j].at
  }

  /** Secrets that are not yet due stay until they are accepted or replaced: a wrong text
      does not drop them. */
  lemma {:induction false} OutstandingStays(kind: Kind, run: seq<Event>, i: nat, n: nat, to: string, now: int)
    requires n <= |run| && Clocked(run) && Outstanding(kind, run, i, n, to)
    requires now <= run[i].at + run[i].lifetime && forall k :: 0 <= k < n ==> run[k].at <= now
    ensures to in After(kind, run, n) && After(kind, run, n)[to] == Secret(run[i].text, run[i].at + run[i].lifetime)
  {
    if i < n - 1 {
      OutstandingStays(kind, run, i, n - 1, to, now);
      assert !Stores(run, n - 1, to) && !Accepts(kind, run, n - 1, to);
    }
  }

  /** In every run whose clock does not go back, a text is accepted exactly when it is the
      one stored last for the address, was not accepted since, is not past its lifetime, and,
      if a link, holds a session id; whatever other texts were tried. */
  lemma AcceptedExactly(kind: Kind, run: seq<Event>, j: nat, to: string)
    requires j < |run| && Clocked(run) && run[j].DoVerify? && run[j].to == to
    ensures Accepts(kind, run, j, to) <==>
            && Payload(kind, run[j].text).Some?
            && exists i: nat :: && Outstanding(kind, run, i, j, to) && run[i].text == run[j].text
                                && run[j].at <= run[i].at + run[i].lifetime
  {
    hide After, Payload;
    if Accepts(kind, run, j, to) { var _ := AcceptedOnceInTime(kind, run, j, to); }
    if i: nat :| && Outstanding(kind, run, i, j, to) && run[i].text == run[j].text
                 && run[j].at <= run[i].at + run[i].lifetime
    {
      OutstandingStays(kind, run, i, j, to, run[j].at);
    }
  }

  /** A link holds a session id exactly when it has one dot; every code passes. */
  lemma PayloadExactly(kind: Kind, text: string)
    ensures Payload(kind, text).Some? <==> kind.Code? || multiset(text)['.'] == 1
  {
    SplitCount(text, '.');
  }

  // ---------- link tokens ----------

  /** generateToken: the text of n random bytes cut to n characters. */
  function TokenText(bytes: seq<Byte>): (t: string)
    ensures |t| == |bytes|
  {
    TextLength(bytes);
    Encode(bytes)[..|bytes|]
  }

  lemma TokenHasNoDot(bytes: seq<Byte>)
    ensures '.' !in TokenText(bytes)
  {
    TextLength(bytes);
    forall i: nat | i < |bytes| ensures TokenText(bytes)[i] != '.' {
      TextShape(bytes, i);
    }
  }

  function LinkText(bytes: seq<Byte>, sessionId: string): string {
    TokenText(bytes) + ['.'] + sessionId
  }

  /** A link just stored gives back its session id, exactly when the id has no dot. */
  lemma SessionRecovered(s: Secrets, to: string, bytes: seq<Byte>, sessionId: string, now: int, life: int, later: int)
    requires now <= later <= now + life
    ensures var s1 := Step(Link, s, DoStore(now, to, LinkText(bytes, sessionId), life));
            Verify(Link, s1, later, to, LinkText(bytes, sessionId)).1 == Ok(sessionId) <==> '.' !in sessionId
  {
    TokenHasNoDot(bytes);
    SplitAt(TokenText(bytes), sessionId, '.');
    SplitCount(sessionId, '.');
    if '.' !in sessionId {
      SplitWhole(sessionId, '.');
    } else {
      assert '.' in multiset(sessionId);
    }
  }

  // ---------- the managers ----------

  class LinkManager {
    const baseURL: string
    const tokenLength: nat
    const expireTime: int
    var store: Secrets

    constructor (baseURL: string, tokenLength: nat, expireTime: int)
      ensures store == map[]
    {
      this.baseURL, this.tokenLength, this.expireTime, store := baseURL, tokenLength, expireTime, map[];
    }

    /** Generate; the bytes are the random draw, if there is one. */
    method Generate(now: int, to: string, sessionId: string, bytes: Option<seq<Byte>>)
      returns (r: Option<(string, string)>)
      requires bytes.Some? ==> |bytes.value| == tokenLength
      modifies this
      ensures r.Some? <==> bytes.Some?
      ensures r.Some? ==> r.value.0 == LinkText(bytes.value, sessionId)
                          && r.value.1 == baseURL + "?token=" + r.value.0 + "&email=" + to
      ensures store == if r.Some? then Step(Link, old(store), DoStore(now, to, r.value.0, expireTime)) else old(store)
    {
      if bytes.None? { return None; }
      var text := Encode(bytes.value);
      TextLength(bytes.value);
      var token := text[..tokenLength] + ['.'] + sessionId;
      store := store[to := Secret(token, now + expireTime)];
      return Some((token, baseURL + "?token=" + token + "&email=" + to));
    }

    /** Send: the link is stored even if it cannot be delivered. */
    method Send(now: int, to: string, sessionId: string, bytes: Option<seq<Byte>>, delivered: bool) returns (ok: bool)
      requires bytes.Some? ==> |bytes.value| == tokenLength
      modifies this
      ensures ok <==> bytes.Some? && delivered
      ensures store == if bytes.None? then old(store)
                       else Step(Link, old(store), DoStore(now, to, LinkText(bytes.value, sessionId), expireTime))
    {
      var link := Generate(now, to, sessionId, bytes);
      return link.Some? && delivered;
    }

    method VerifyLink(now: int, to: string, token: string) returns (r: Result<string, VerifyError>)
      modifies this
      ensures (store, r) == Verify(Link, old(store), now, to, token)
    {
      if to !in store { return Err(NotFound); }
      var stored := store[to];
      if now > stored.expiredAt {
        store := store - {to};
        return Err(Expired);
      }
      if stored.text != token { return Err(Mismatch); }
      var parts := Split(token, '.');
      if |parts| != 2 { return Err(BadFormat); }
      store := store - {to};
      return Ok(parts[1]);
    }

    method IsValid(now: int, to: string) returns (ok: bool)
      ensures ok == Valid(store, now, to)
    {
      if to in store { return !(now > store[to].expiredAt); }
      return false;
    }
  }

  class CodeManager {
    const codeLength: nat
    const expireTime: int
    var store: Secrets

    constructor (codeLength: nat, expireTime: int)
      ensures store == map[]
    {
      this.codeLength, this.expireTime, store := codeLength, expireTime, map[];
    }

    /** Generate fills a buffer with one digit per random draw. */
    method Generate(rolls: seq<nat>) returns (code: string)
      requires |rolls| == codeLength && forall i :: 0 <= i < |rolls| ==> rolls[i] < 10
      ensures |code| == codeLength
      ensures forall i :: 0 <= i < |code| ==> code[i] == "0123456789"[rolls[i]]
    {
      var charset := "0123456789";
      var buffer := new char[codeLength](_ => '0');
      for i := 0 to buffer.Length
        invariant forall j :: 0 <= j < i ==> buffer[j] == charset[rolls[j]]
      {
        buffer[i] := charset[rolls[i]];
      }
      return buffer[..];
    }

    /** Send stores the code only after it was delivered. */
    method Send(now: int, to: string, rolls: seq<nat>, delivered: bool) returns (r: Option<string>)
      requires |rolls| == codeLength && forall i :: 0 <= i < |rolls| ==> rolls[i] < 10
      modifies this
      ensures r.Some? <==> delivered
      ensures store == if delivered then Step(Code, old(store), DoStore(now, to, r.value, expireTime)) else old(store)
    {
      var code := Generate(rolls);
      if !delivered { return None; }
      store := store[to := Secret(code, now + expireTime)];
      return Some(code);
    }

    method VerifyCode(now: int, to: string, code: string) returns (r: Result<string, VerifyError>)
      modifies this
      ensures (store, r) == Verify(Code, old(store), now, to, code)
    {
      if to !in store { return Err(NotFound); }
      var stored := store[to];
      if now > stored.expiredAt {
        store := store - {to};
        return Err(Expired);
      }
      if stored.text != code { return Err(Mismatch); }
      store := store - {to};
      return Ok("");
    }

    method IsValid(now: int, to: string) returns (ok: bool)
      ensures ok == Valid(store, now, to)
    {
      if to in store { return !(now > store[to].expiredAt); }
      return false;
    }
  }

}
