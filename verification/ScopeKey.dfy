/** The byte stream hashed into a scope's persistence identity. */
module ScopeKey {
  import opened Common

  newtype byte = b: int | 0 <= b < 256

  /** A scope's kind, identifier and optional tenant, as the UTF-8 bytes that are hashed. */
  datatype Scope = Scope(kind: seq<byte>, id: seq<byte>, tenant: Option<seq<byte>>)

  const SCOPE_PREFIX: string := "graphql-orm-ai/scope/v1\0"

  /** The ASCII prefix as bytes. */
  function PrefixBytes(text: string): (r: seq<byte>)
    requires forall c :: c in text ==> c < 128 as char
  {
    seq(|text|, i requires 0 <= i < |text| => assert text[i] in text; text[i] as byte)
  }

  function Power256(k: nat): nat {
    if k == 0 then 1 else 256 * Power256(k - 1)
  }

  /** The `k` low-order bytes of `n`, most significant first. */
  function BigEndian(n: nat, k: nat): (r: seq<byte>)
    ensures |r| == k
  {
    if k == 0 then [] else BigEndian(n / 256, k - 1) + [(n % 256) as byte]
  }

  function Number(bytes: seq<byte>): nat {
    if bytes == [] then 0 else 256 * Number(bytes[..|bytes| - 1]) + bytes[|bytes| - 1] as nat
  }

  lemma {:induction false} BigEndianReadsBack(n: nat, k: nat)
    requires n < Power256(k)
    ensures Number(BigEndian(n, k)) == n
  {
    if k > 0 {
      BigEndianReadsBack(n / 256, k - 1);
      assert BigEndian(n, k)[..k - 1] == BigEndian(n / 256, k - 1);
    }
  }

  lemma WordHoldsLengths()
    ensures Power256(8) == U64_MAX + 1
  {
    assert Power256(4) == 256 * 256 * 256 * 256;
    assert Power256(8) == 256 * 256 * 256 * 256 * Power256(4);
  }

  /** One field: a presence tag, then the eight-byte length and the bytes when present. */
  function FieldCode(value: Option<seq<byte>>): seq<byte> {
    match value
    case None => [0]
    case Some(bytes) => [1] + BigEndian(|bytes|, 8) + bytes
  }

  function Stream(s: Scope): seq<byte> {
    PrefixBytes(SCOPE_PREFIX) + FieldCode(Some(s.kind)) + FieldCode(Some(s.id)) + FieldCode(s.tenant)
  }

  ghost predicate Addressable(value: Option<seq<byte>>) {
    value.Some? ==> |value.value| <= U64_MAX
  }

  /** The field code is prefix-free: what follows a field cannot be taken for part of it. */
  lemma FieldCodeIsPrefixFree(a: Option<seq<byte>>, b: Option<seq<byte>>, x: seq<byte>, y: seq<byte>)
    requires Addressable(a) && Addressable(b)
    requires FieldCode(a) + x == FieldCode(b) + y
    ensures a == b && x == y
  {
    var s := FieldCode(a) + x;
    assert s[0] == FieldCode(a)[0] && s[0] == FieldCode(b)[0];
    if a.None? {
      assert x == s[1..] && y == s[1..];
    } else {
      WordHoldsLengths();
      assert BigEndian(|a.value|, 8) == s[1..9] == BigEndian(|b.value|, 8);
      BigEndianReadsBack(|a.value|, 8);
      BigEndianReadsBack(|b.value|, 8);
      var n := 9 + |a.value|;
      assert a.value == s[9..n] == b.value;
      assert x == s[n..] && y == s[n..];
    }
  }

  /** Distinct scopes hash distinct streams, and no scope's stream begins another's. */
  lemma StreamIsInjective(s: Scope, t: Scope, x: seq<byte>, y: seq<byte>)
    requires |s.kind| <= U64_MAX && |s.id| <= U64_MAX && Addressable(s.tenant)
    requires |t.kind| <= U64_MAX && |t.id| <= U64_MAX && Addressable(t.tenant)
    requires Stream(s) + x == Stream(t) + y
    ensures s == t && x == y
  {
    hide PrefixBytes, FieldCode;
    var p := PrefixBytes(SCOPE_PREFIX);
    var sKind, tKind := FieldCode(Some(s.kind)), FieldCode(Some(t.kind));
    var sId, tId := FieldCode(Some(s.id)), FieldCode(Some(t.id));
    var sTenant, tTenant := FieldCode(s.tenant), FieldCode(t.tenant);
    Regroup(p, sKind, sId, sTenant, x);
    Regroup(p, tKind, tId, tTenant, y);
    Unprefix(p, sKind + (sId + (sTenant + x)), tKind + (tId + (tTenant + y)));
    FieldCodeIsPrefixFree(Some(s.kind), Some(t.kind), sId + (sTenant + x), tId + (tTenant + y));
    FieldCodeIsPrefixFree(Some(s.id), Some(t.id), sTenant + x, tTenant + y);
    FieldCodeIsPrefixFree(s.tenant, t.tenant, x, y);
  }

  lemma Regroup(p: seq<byte>, a: seq<byte>, b: seq<byte>, c: seq<byte>, x: seq<byte>)
    ensures p + a + b + c + x == p + (a + (b + (c + x)))
  {
  }

  lemma Unprefix(p: seq<byte>, x: seq<byte>, y: seq<byte>)
    requires p + x == p + y
    ensures x == y
  {
    assert x == (p + x)[|p|..] && y == (p + y)[|p|..];
  }

  /** `ai_scope_key`, up to the hash: the bytes fed to it, in order. */
  method AiScopeKey(s: Scope) returns (hashed: seq<byte>)
    ensures hashed == Stream(s)
  {
    hide PrefixBytes, FieldCode;
    hashed := PrefixBytes(SCOPE_PREFIX);
    var fields := [Some(s.kind), Some(s.id), s.tenant];
    for i := 0 to |fields|
      invariant hashed == PrefixBytes(SCOPE_PREFIX) + FieldCodes(fields[..i])
    {
      assert fields[..i + 1][..i] == fields[..i];
      ghost var before := hashed;
      match fields[i] {
        case Some(value) =>
          hashed := hashed + [1];
          hashed := hashed + BigEndian(|value|, 8);
          hashed := hashed + value;
        case None =>
          hashed := hashed + [0];
      }
      Appended(before, hashed, fields[i]);
    }
    assert fields[..|fields|] == fields;
    ThreeFields(s);
  }

  ghost function FieldCodes(fields: seq<Option<seq<byte>>>): seq<byte> {
    if fields == [] then [] else FieldCodes(fields[..|fields| - 1]) + FieldCode(fields[|fields| - 1])
  }

  lemma Appended(before: seq<byte>, after: seq<byte>, value: Option<seq<byte>>)
    requires after ==
      match value
      case Some(bytes) => before + [1] + BigEndian(|bytes|, 8) + bytes
      case None => before + [0]
    ensures after == before + FieldCode(value)
  {
  }

  lemma ThreeFields(s: Scope)
    ensures PrefixBytes(SCOPE_PREFIX) + FieldCodes([Some(s.kind), Some(s.id), s.tenant]) == Stream(s)
  {
    hide PrefixBytes, FieldCode;
    var fields := [Some(s.kind), Some(s.id), s.tenant];
    var k, i, t := FieldCode(fields[0]), FieldCode(fields[1]), FieldCode(fields[2]);
    assert FieldCodes(fields[..0]) == [];
    assert fields[..1][..0] == fields[..0] && FieldCodes(fields[..1]) == [] + k;
    assert fields[..2][..1] == fields[..1] && FieldCodes(fields[..2]) == k + i;
    assert FieldCodes(fields) == k + i + t;
  }
}
