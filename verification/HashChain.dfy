/** The hash chain of internal/audit/hash_chain.go. */
module HashChain {
  import opened Common

  /** An audit log record. Body stands for the fields the chain does not read. */
  datatype AuditLog = AuditLog(appId: string, timestamp: int, eventType: string, userId: string, clientIP: string,
                               statusCode: int, body: string, prevHash: string, hash: string)

  /** JSON encoding, which may fail, and the hex text of SHA-256. */
  datatype Crypto = Crypto(encode: AuditLog -> Option<string>, sha256: string -> string)

  /** What the chain relies on: encodings and hashes of different inputs differ, and no
      hash is empty. */
  ghost predicate Ideal(c: Crypto) {
    && (forall a, b :: c.encode(a).Some? && c.encode(a) == c.encode(b) ==> a == b)
    && (forall x, y :: c.sha256(x) == c.sha256(y) ==> x == y)
    && (forall x :: c.sha256(x) != "")
  }

  /** The hash of a record with its own hash cleared; empty if it cannot be encoded. */
  function CalculateHash(c: Crypto, log: AuditLog): string {
    match c.encode(log.(hash := ""))
    case None => ""
    case Some(text) => c.sha256(text)
  }

  predicate VerifyLog(c: Crypto, log: AuditLog) {
    CalculateHash(c, log) != "" && CalculateHash(c, log) == log.hash
  }

  /** Every record is intact and names the hash of the one before it. */
  ghost predicate ChainIntact(c: Crypto, logs: seq<AuditLog>) {
    && (forall i :: 0 <= i < |logs| ==> VerifyLog(c, logs[i]))
    && (forall i :: 0 < i < |logs| ==> logs[i].prevHash == logs[i - 1].hash)
  }

  method VerifyChain(c: Crypto, logs: seq<AuditLog>) returns (ok: bool)
    ensures ok <==> ChainIntact(c, logs)
  {
    if |logs| == 0 { return true; }
    if !VerifyLog(c, logs[0]) { return false; }
    for i := 1 to |logs|
      invariant forall j :: 0 <= j < i ==> VerifyLog(c, logs[j])
      invariant forall j :: 0 < j < i ==> logs[j].prevHash == logs[j - 1].hash
    {
      if !VerifyLog(c, logs[i]) { return false; }
      if logs[i].prevHash != logs[i - 1].hash { return false; }
    }
    return true;
  }

  /** AddLog: the record as chained behind the last hash, unless it cannot be encoded. */
  function Link(c: Crypto, lastHash: string, log: AuditLog): Option<AuditLog> {
    var linked := log.(prevHash := lastHash);
    var hash := CalculateHash(c, linked);
    if hash == "" then None else Some(linked.(hash := hash))
  }

  class Chain {
    const c: Crypto
    var lastHash: string

    constructor (c: Crypto)
      ensures this.c == c && lastHash == ""
    {
      this.c, lastHash := c, "";
    }

    method AddLog(log: AuditLog) returns (r: Option<AuditLog>)
      modifies this
      ensures r == Link(c, old(lastHash), log)
      ensures lastHash == if r.Some? then r.value.hash else old(lastHash)
    {
      var linked := log.(prevHash := lastHash);
      var hash := CalculateHash(c, linked);
      if hash == "" { return None; }
      lastHash := hash;
      return Some(linked.(hash := hash));
    }
  }

  // ---------- tamper evidence ----------

  /** Intact records with the same hash are the same record. */
  lemma SameHash(c: Crypto, a: AuditLog, b: AuditLog)
    requires Ideal(c) && VerifyLog(c, a) && VerifyLog(c, b) && a.hash == b.hash
    ensures a == b
  {
    var x, y := c.encode(a.(hash := "")), c.encode(b.(hash := ""));
    assert c.sha256(x.value) == c.sha256(y.value);
    assert a.(hash := "") == b.(hash := "");
  }

  lemma HashNotEmpty(c: Crypto, a: AuditLog)
    requires VerifyLog(c, a)
    ensures a.hash != ""
  {
  }

  ghost predicate IsSuffix(s: seq<AuditLog>, t: seq<AuditLog>) {
    |s| <= |t| && s == t[|t| - |s|..]
  }

  lemma IntactTail(c: Crypto, logs: seq<AuditLog>, n: nat)
    requires ChainIntact(c, logs) && n <= |logs|
    ensures ChainIntact(c, logs[..n])
  {
  }

  lemma LastLink(c: Crypto, s: seq<AuditLog>, t: seq<AuditLog>)
    requires Ideal(c) && ChainIntact(c, s) && ChainIntact(c, t)
    requires s != [] && t != [] && s[|s| - 1].hash == t[|t| - 1].hash
    ensures s[|s| - 1] == t[|t| - 1]
    ensures |s| > 1 && |t| > 1 ==> s[|s| - 2].hash == t[|t| - 2].hash
  {
    SameHash(c, s[|s| - 1], t[|t| - 1]);
  }

  lemma SuffixMore(s: seq<AuditLog>, t: seq<AuditLog>)
    requires 0 < |s| <= |t| && s[|s| - 1] == t[|t| - 1]
    requires IsSuffix(s[..|s| - 1], t[..|t| - 1])
    ensures IsSuffix(s, t)
  {
    var k := |t| - |s|;
    forall i | 0 <= i < |s| ensures s[i] == t[k..][i] {
      if i < |s| - 1 {
        assert s[..|s| - 1][i] == t[..|t| - 1][k..][i];
      }
    }
  }

  /** Of two non-empty accepted sequences with the same final hash, the shorter is a
      suffix of the longer. */
  lemma {:induction false} SameEndSameTail(c: Crypto, s: seq<AuditLog>, t: seq<AuditLog>)
    requires Ideal(c) && ChainIntact(c, s) && ChainIntact(c, t)
    requires 0 < |s| <= |t| && s[|s| - 1].hash == t[|t| - 1].hash
    ensures IsSuffix(s, t)
    decreases |s|
  {
    hide Ideal, ChainIntact, IsSuffix;
    LastLink(c, s, t);
    if |s| > 1 {
      IntactTail(c, s, |s| - 1);
      IntactTail(c, t, |t| - 1);
      SameEndSameTail(c, s[..|s| - 1], t[..|t| - 1]);
    } else {
      EmptySuffix(s[..0], t[..|t| - 1]);
    }
    SuffixMore(s, t);
  }

  lemma EmptySuffix(s: seq<AuditLog>, t: seq<AuditLog>)
    requires s == []
    ensures IsSuffix(s, t)
  {
  }

  /** Two accepted sequences that start with an empty previous hash and end with the
      same hash are equal: nothing in between can have been changed. */
  lemma TamperEvident(c: Crypto, s: seq<AuditLog>, t: seq<AuditLog>)
    requires Ideal(c) && ChainIntact(c, s) && ChainIntact(c, t) && s != [] && t != []
    requires s[|s| - 1].hash == t[|t| - 1].hash
    ensures IsSuffix(s, t) || IsSuffix(t, s)
    ensures s[0].prevHash == "" && t[0].prevHash == "" ==> s == t
  {
    if |s| <= |t| {
      SameEndSameTail(c, s, t);
      FirstIsFirst(c, s, t);
    } else {
      SameEndSameTail(c, t, s);
      FirstIsFirst(c, t, s);
    }
  }

  lemma FirstIsFirst(c: Crypto, s: seq<AuditLog>, t: seq<AuditLog>)
    requires ChainIntact(c, t) && 0 < |s| <= |t| && IsSuffix(s, t)
    ensures s[0].prevHash == "" ==> s == t
  {
    if |s| < |t| && s[0].prevHash == "" {
      var k := |t| - |s|;
      assert t[k] == s[0];
      HashNotEmpty(c, t[k - 1]);
      assert false;
    }
  }

  // ---------- the chain as it is built ----------

  /** The records of one run of AddLog, from an empty last hash. */
  ghost predicate Built(c: Crypto, chain: seq<AuditLog>) {
    ChainIntact(c, chain) && (chain != [] ==> chain[0].prevHash == "")
  }

  function LastHash(chain: seq<AuditLog>): string {
    if chain == [] then "" else chain[|chain| - 1].hash
  }

  lemma LinkBuilds(c: Crypto, chain: seq<AuditLog>, log: AuditLog)
    requires Built(c, chain) && Link(c, LastHash(chain), log).Some?
    ensures var rec := Link(c, LastHash(chain), log).value;
            && Built(c, chain + [rec])
            && rec.(prevHash := log.prevHash, hash := log.hash) == log
  {
  }

  /** No record occurs at two places of one chain: their predecessors would be equal
      too, all the way down to the first. */
  lemma {:induction false} ChainDistinct(c: Crypto, chain: seq<AuditLog>, i: nat, j: nat)
    requires Ideal(c) && Built(c, chain) && i < j < |chain|
    ensures chain[i].hash != chain[j].hash
  {
    if chain[i].hash == chain[j].hash {
      SameHash(c, chain[i], chain[j]);
      HashNotEmpty(c, chain[j - 1]);
      if i > 0 { ChainDistinct(c, chain, i - 1, j - 1); }
      assert false;
    }
  }

  /** The records of a chain at the given positions. */
  ghost function Pick(chain: seq<AuditLog>, at: seq<nat>): seq<AuditLog>
    requires forall k :: 0 <= k < |at| ==> at[k] < |chain|
  {
    seq(|at|, k requires 0 <= k < |at| => chain[at[k]])
  }

  ghost predicate Increasing(at: seq<nat>) {
    forall i, j :: 0 <= i < j < |at| ==> at[i] < at[j]
  }

  ghost predicate Consecutive(at: seq<nat>) {
    forall k :: 0 < k < |at| ==> at[k] == at[k - 1] + 1
  }

  lemma Linked(c: Crypto, chain: seq<AuditLog>, a: nat, b: nat)
    requires Ideal(c) && Built(c, chain) && a < b < |chain|
    ensures chain[b].prevHash == chain[a].hash <==> b == a + 1
  {
    assert chain[b].prevHash == chain[b - 1].hash;
    if a < b - 1 { ChainDistinct(c, chain, a, b - 1); }
  }

  /** Records picked out of a chain in order pass verification exactly when they are
      consecutive in it. */
  lemma PickedIntact(c: Crypto, chain: seq<AuditLog>, at: seq<nat>)
    requires Ideal(c) && Built(c, chain) && Increasing(at)
    requires forall k :: 0 <= k < |at| ==> at[k] < |chain|
    ensures ChainIntact(c, Pick(chain, at)) <==> Consecutive(at)
  {
    hide Ideal, VerifyLog;
    var logs := Pick(chain, at);
    PickedLinks(c, chain, at);
    if !Consecutive(at) {
      var k :| 0 < k < |at| && at[k] != at[k - 1] + 1;
      assert logs[k].prevHash != logs[k - 1].hash;
    }
  }

  lemma PickedLinks(c: Crypto, chain: seq<AuditLog>, at: seq<nat>)
    requires Ideal(c) && Built(c, chain) && Increasing(at)
    requires forall k :: 0 <= k < |at| ==> at[k] < |chain|
    ensures forall k :: 0 < k < |at| ==> (chain[at[k]].prevHash == chain[at[k - 1]].hash <==> at[k] == at[k - 1] + 1)
  {
    forall k | 0 < k < |at| ensures chain[at[k]].prevHash == chain[at[k - 1]].hash <==> at[k] == at[k - 1] + 1 {
      Linked(c, chain, at[k - 1], at[k]);
    }
  }
}
