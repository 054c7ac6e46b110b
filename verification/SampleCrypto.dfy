/** One encoding and one hash that meet what module HashChain asks of them, so that its
    theorems are about something. */
module SampleCrypto {
  import opened Common
  import opened HashChain

  /** A number as that many strokes and a stop. */
  function Strokes(n: nat): string {
    if n == 0 then "." else ['x'] + Strokes(n - 1)
  }

  lemma {:induction false} StrokesFirst(a: nat, b: nat, r: string, s: string)
    requires Strokes(a) + r == Strokes(b) + s
    ensures a == b && r == s
  {
    var left, right := Strokes(a) + r, Strokes(b) + s;
    assert left[0] == right[0];
    if a == 0 {
      assert left[1..] == r && right[1..] == s;
    } else {
      assert left[1..] == Strokes(a - 1) + r && right[1..] == Strokes(b - 1) + s;
      StrokesFirst(a - 1, b - 1, r, s);
    }
  }

  /** A text behind its length. */
  function Field(t: string): string {
    Strokes(|t|) + t
  }

  lemma FieldFirst(a: string, b: string, r: string, s: string)
    requires Field(a) + r == Field(b) + s
    ensures a == b && r == s
  {
    assert Field(a) + r == Strokes(|a|) + (a + r) && Field(b) + s == Strokes(|b|) + (b + s);
    StrokesFirst(|a|, |b|, a + r, b + s);
    assert (a + r)[..|a|] == a && (b + s)[..|a|] == b;
    assert (a + r)[|a|..] == r && (b + s)[|a|..] == s;
  }

  function Number(i: int): string {
    Field(if i < 0 then "-" else "") + Strokes(if i < 0 then -i else i)
  }

  lemma NumberFirst(a: int, b: int, r: string, s: string)
    requires Number(a) + r == Number(b) + s
    ensures a == b && r == s
  {
    var x, y := if a < 0 then "-" else "", if b < 0 then "-" else "";
    var m, n := Strokes(if a < 0 then -a else a), Strokes(if b < 0 then -b else b);
    assert Number(a) + r == Field(x) + (m + r) && Number(b) + s == Field(y) + (n + s);
    FieldFirst(x, y, m + r, n + s);
    assert a < 0 <==> |x| == 1;
    assert b < 0 <==> |y| == 1;
    StrokesFirst(if a < 0 then -a else a, if b < 0 then -b else b, r, s);
  }

  /** The fields of a record end to end. */
  function Text(l: AuditLog): string {
    Field(l.appId) + Tail(l)
  }

  function Tail(l: AuditLog): string {
    Number(l.timestamp) + (Field(l.eventType) + (Field(l.userId) + (Field(l.clientIP) + Rest(l))))
  }

  function Rest(l: AuditLog): string {
    Number(l.statusCode) + (Field(l.body) + (Field(l.prevHash) + (Field(l.hash) + "")))
  }

  lemma TextInjective(a: AuditLog, b: AuditLog)
    requires Text(a) == Text(b)
    ensures a == b
  {
    hide Field, Number;
    FieldFirst(a.appId, b.appId, Tail(a), Tail(b));
    TailInjective(a, b);
  }

  lemma TailInjective(a: AuditLog, b: AuditLog)
    requires Tail(a) == Tail(b)
    ensures a.timestamp == b.timestamp && a.eventType == b.eventType && a.userId == b.userId && a.clientIP == b.clientIP
    ensures a.statusCode == b.statusCode && a.body == b.body && a.prevHash == b.prevHash && a.hash == b.hash
  {
    hide Field, Number, Rest;
    NumberFirst(a.timestamp, b.timestamp, Field(a.eventType) + (Field(a.userId) + (Field(a.clientIP) + Rest(a))),
                Field(b.eventType) + (Field(b.userId) + (Field(b.clientIP) + Rest(b))));
    FieldFirst(a.eventType, b.eventType, Field(a.userId) + (Field(a.clientIP) + Rest(a)),
               Field(b.userId) + (Field(b.clientIP) + Rest(b)));
    FieldFirst(a.userId, b.userId, Field(a.clientIP) + Rest(a), Field(b.clientIP) + Rest(b));
    FieldFirst(a.clientIP, b.clientIP, Rest(a), Rest(b));
    RestInjective(a, b);
  }

  lemma RestInjective(a: AuditLog, b: AuditLog)
    requires Rest(a) == Rest(b)
    ensures a.statusCode == b.statusCode && a.body == b.body && a.prevHash == b.prevHash && a.hash == b.hash
  {
    hide Field, Number;
    NumberFirst(a.statusCode, b.statusCode, Field(a.body) + (Field(a.prevHash) + (Field(a.hash) + "")),
                Field(b.body) + (Field(b.prevHash) + (Field(b.hash) + "")));
    FieldFirst(a.body, b.body, Field(a.prevHash) + (Field(a.hash) + ""), Field(b.prevHash) + (Field(b.hash) + ""));
    FieldFirst(a.prevHash, b.prevHash, Field(a.hash) + "", Field(b.hash) + "");
    FieldFirst(a.hash, b.hash, "", "");
  }

  const SAMPLE := Crypto((l: AuditLog) => Some(Text(l)), (t: string) => ['h'] + t)

  /** It encodes every record, and is as ideal as the theorems ask. */
  lemma SampleIsIdeal()
    ensures Ideal(SAMPLE) && forall l :: SAMPLE.encode(l).Some?
  {
    hide Text;
    forall a, b | SAMPLE.encode(a).Some? && SAMPLE.encode(a) == SAMPLE.encode(b) ensures a == b {
      assert SAMPLE.encode(a) == Some(Text(a)) && SAMPLE.encode(b) == Some(Text(b));
      TextInjective(a, b);
    }
    forall x, y | SAMPLE.sha256(x) == SAMPLE.sha256(y) ensures x == y {
      assert (['h'] + x)[1..] == x && (['h'] + y)[1..] == y;
    }
  }
}
