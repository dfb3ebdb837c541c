/**
 * The request digest that identifies an idempotent invocation: length-framed
 * fields, and exactly which requests it cannot tell apart
 * (compatibility_service/pkg/orchestrator/service.go:1083-1131).
 */
module RequestDigest {
  import opened Common

  type Bytes = s: seq<int> | forall i :: 0 <= i < |s| ==> 0 <= s[i] < 256

  /** A value whose length fits the eight-byte frame. */
  type Field = s: Bytes | |s| < 0x1_0000_0000_0000_0000 witness []

  /** n in k big-endian bytes. */
  function BigEndian(n: nat, k: nat): (b: Bytes)
    ensures |b| == k
  {
    if k == 0 then [] else BigEndian(n / 256, k - 1) + [n % 256]
  }

  function Power256(k: nat): nat {
    if k == 0 then 1 else 256 * Power256(k - 1)
  }

  lemma {:induction false} BigEndianInjective(m: nat, n: nat, k: nat)
    requires m < Power256(k) && n < Power256(k) && BigEndian(m, k) == BigEndian(n, k)
    ensures m == n
  {
    if k > 0 {
      var a, b := BigEndian(m / 256, k - 1), BigEndian(n / 256, k - 1);
      assert (a + [m % 256])[..k - 1] == a && (b + [n % 256])[..k - 1] == b;
      assert (a + [m % 256])[k - 1] == m % 256 && (b + [n % 256])[k - 1] == n % 256;
      BigEndianInjective(m / 256, n / 256, k - 1);
    }
  }

  /** writeDigestBytes of each field in turn. */
  function Framed(fields: seq<Field>): Bytes {
    if fields == [] then [] else BigEndian(|fields[0]|, 8) + fields[0] + Framed(fields[1..])
  }

  /** The digest input determines the list of fields. */
  lemma {:induction false} FramedInjective(a: seq<Field>, b: seq<Field>)
    requires Framed(a) == Framed(b)
    ensures a == b
  {
    if a == [] || b == [] {
    } else {
      assert Framed(a)[..8] == BigEndian(|a[0]|, 8) && Framed(b)[..8] == BigEndian(|b[0]|, 8);
      assert Power256(8) == 0x1_0000_0000_0000_0000;
      BigEndianInjective(|a[0]|, |b[0]|, 8);
      var n := |a[0]|;
      assert Framed(a)[8..8 + n] == a[0] && Framed(b)[8..8 + n] == b[0];
      assert Framed(a)[8 + n..] == Framed(a[1..]) && Framed(b)[8 + n..] == Framed(b[1..]);
      FramedInjective(a[1..], b[1..]);
      assert a == [a[0]] + a[1..] && b == [b[0]] + b[1..];
    }
  }

  /** The fields every request has, in order, from the version tag to the client creator. */
  datatype Request = Request(
    operation: Field, clientTxID: Field, channel: Field, namespace: Field, chaincode: Field, version: Field,
    isInit: bool, function': Field, creator: Field, args: seq<Field>, transient: map<Field, Field>)

  /** "v2", "true" and "false" as bytes. */
  const V2: Field := [118, 50]
  const TRUE: Field := [116, 114, 117, 101]
  const FALSE: Field := [102, 97, 108, 115, 101]

  function Head(r: Request): seq<Field> {
    [V2, r.operation, r.clientTxID, r.channel, r.namespace, r.chaincode, r.version, if r.isInit then TRUE
     else FALSE, r.function', r.creator]
  }

  /** sort.Strings of the keys: some fixed listing of them, each once. */
  ghost predicate Listing(sorted: set<Field> -> seq<Field>) {
    forall keys :: Elems(sorted(keys)) == keys && NoDup(sorted(keys))
  }

  /** writeDigestByteMap: every key followed by its value. */
  function Pairs(m: map<Field, Field>, keys: seq<Field>): seq<Field>
    requires forall k | k in keys :: k in m
  {
    if keys == [] then [] else [keys[0], m[keys[0]]] + Pairs(m, keys[1..])
  }

  ghost function Transient(r: Request, sorted: set<Field> -> seq<Field>): seq<Field>
    requires Listing(sorted)
  {
    assert forall k | k in sorted(r.transient.Keys) :: k in Elems(sorted(r.transient.Keys));
    Pairs(r.transient, sorted(r.transient.Keys))
  }

  /** What requestDigest hashes. */
  ghost function DigestInput(r: Request, sorted: set<Field> -> seq<Field>): Bytes
    requires Listing(sorted)
  {
    Framed(Head(r) + r.args + Transient(r, sorted))
  }

  lemma {:induction false} FramedConcat(a: seq<Field>, b: seq<Field>)
    ensures Framed(a + b) == Framed(a) + Framed(b)
  {
    if a == [] {
      assert a + b == b && Framed(a) + Framed(b) == Framed(b);
    } else {
      assert (a + b)[1..] == a[1..] + b;
      FramedConcat(a[1..], b);
      var frame := BigEndian(|a[0]|, 8) + a[0];
      assert frame + (Framed(a[1..]) + Framed(b)) == (frame + Framed(a[1..])) + Framed(b);
    }
  }

  /** writeDigestBytes. */
  method WriteField(written: Bytes, field: Field, ghost fields: seq<Field>) returns (r: Bytes)
    requires written == Framed(fields)
    ensures r == Framed(fields + [field])
  {
    r := written + (BigEndian(|field|, 8) + field);
    FramedConcat(fields, [field]);
    assert Framed([field]) == BigEndian(|field|, 8) + field by {
      assert [field][1..] == [] && BigEndian(|field|, 8) + field + [] == BigEndian(|field|, 8) + field;
    }
  }

  method WriteFields(written: Bytes, more: seq<Field>, ghost fields: seq<Field>) returns (r: Bytes)
    requires written == Framed(fields)
    ensures r == Framed(fields + more)
  {
    r := written;
    assert fields + more[..0] == fields;
    for i := 0 to |more|
      invariant r == Framed(fields + more[..i])
    {
      r := WriteField(r, more[i], fields + more[..i]);
      assert fields + more[..i + 1] == fields + more[..i] + [more[i]];
    }
    assert more[..|more|] == more;
  }

  lemma {:induction false} PairsSnoc(m: map<Field, Field>, keys: seq<Field>, key: Field)
    requires key in m && forall k | k in keys :: k in m
    ensures (forall k | k in keys + [key] :: k in m) && Pairs(m, keys + [key]) == Pairs(m, keys) + [key, m[key]]
  {
    if keys == [] {
      assert keys + [key] == [key] && [key][1..] == [];
    } else {
      assert (keys + [key])[0] == keys[0] && (keys + [key])[1..] == keys[1..] + [key];
      PairsSnoc(m, keys[1..], key);
    }
  }

  lemma AppendPair<T>(a: seq<T>, b: seq<T>, x: T, y: T)
    ensures (a + b) + [x] + [y] == a + (b + [x, y])
  {
  }

  /** writeDigestByteMap. */
  method WriteByteMap(written: Bytes, m: map<Field, Field>, keys: seq<Field>, ghost fields: seq<Field>)
    returns (r: Bytes)
    requires written == Framed(fields) && forall k | k in keys :: k in m
    ensures r == Framed(fields + Pairs(m, keys))
  {
    r := written;
    assert fields + Pairs(m, keys[..0]) == fields;
    for i := 0 to |keys|
      invariant r == Framed(fields + Pairs(m, keys[..i]))
    {
      var key := keys[i];
      ghost var done := fields + Pairs(m, keys[..i]);
      r := WriteField(r, key, done);
      r := WriteField(r, m[key], done + [key]);
      PairsSnoc(m, keys[..i], key);
      assert keys[..i + 1] == keys[..i] + [key];
      AppendPair(fields, Pairs(m, keys[..i]), key, m[key]);
    }
    assert keys[..|keys|] == keys;
  }

  /** requestDigest up to the hash. */
  method RequestDigestInput(r: Request, sorted: set<Field> -> seq<Field>) returns (input: Bytes)
    requires Listing(sorted)
    ensures input == DigestInput(r, sorted)
  {
    var head := Head(r);
    input := WriteFields([], head, []);
    assert [] + head == head;
    input := WriteFields(input, r.args, head);
    var keys := sorted(r.transient.Keys);
    assert forall k | k in keys :: k in Elems(keys);
    input := WriteByteMap(input, r.transient, keys, head + r.args);
  }

  /** The pairs determine the map. */
  lemma {:induction false} PairsDetermine(m: map<Field, Field>, a: seq<Field>, n: map<Field, Field>, b: seq<Field>)
    requires (forall k | k in a :: k in m) && (forall k | k in b :: k in n) && Pairs(m, a) == Pairs(n, b)
    ensures a == b && forall k | k in a :: m[k] == n[k]
  {
    if a == [] || b == [] {
    } else {
      var x, y := Pairs(m, a), Pairs(n, b);
      assert x[0] == a[0] && x[1] == m[a[0]] && x[2..] == Pairs(m, a[1..]);
      assert y[0] == b[0] && y[1] == n[b[0]] && y[2..] == Pairs(n, b[1..]);
      PairsDetermine(m, a[1..], n, b[1..]);
      assert a == [a[0]] + a[1..] && b == [b[0]] + b[1..];
    }
  }

  lemma {:induction false} TransientDetermines(r: Request, s: Request, sorted: set<Field> -> seq<Field>)
    requires Listing(sorted) && Transient(r, sorted) == Transient(s, sorted)
    ensures r.transient == s.transient
  {
    var a, b := sorted(r.transient.Keys), sorted(s.transient.Keys);
    assert Elems(a) == r.transient.Keys && Elems(b) == s.transient.Keys;
    assert forall k | k in a :: k in Elems(a);
    assert forall k | k in b :: k in Elems(b);
    PairsDetermine(r.transient, a, s.transient, b);
    assert forall k | k in r.transient.Keys :: k in a;
  }

  /**
   * Two requests are hashed alike exactly when they agree on the single fields
   * and on the list of arguments followed by the transient pairs.
   */
  lemma {:induction false} HashedAlike(r: Request, s: Request, sorted: set<Field> -> seq<Field>)
    requires Listing(sorted)
    ensures DigestInput(r, sorted) == DigestInput(s, sorted) <==>
              Head(r) == Head(s) && r.args + Transient(r, sorted) == s.args + Transient(s, sorted)
  {
    var a, b := Head(r) + r.args + Transient(r, sorted), Head(s) + s.args + Transient(s, sorted);
    assert a == Head(r) + (r.args + Transient(r, sorted)) && b == Head(s) + (s.args + Transient(s, sorted));
    if DigestInput(r, sorted) == DigestInput(s, sorted) {
      FramedInjective(a, b);
      assert a[..10] == Head(r) && b[..10] == Head(s);
      assert a[10..] == r.args + Transient(r, sorted) && b[10..] == s.args + Transient(s, sorted);
    }
  }

  /** Among requests with equally many arguments the digest input identifies the request. */
  lemma {:induction false} IdentifiesAtEqualCount(r: Request, s: Request, sorted: set<Field> -> seq<Field>)
    requires Listing(sorted) && |r.args| == |s.args|
    ensures DigestInput(r, sorted) == DigestInput(s, sorted) <==> r == s
  {
    HashedAlike(r, s, sorted);
    if DigestInput(r, sorted) == DigestInput(s, sorted) {
      var a, b := r.args + Transient(r, sorted), s.args + Transient(s, sorted);
      assert a[..|r.args|] == r.args && b[..|s.args|] == s.args;
      assert a[|r.args|..] == Transient(r, sorted) && b[|s.args|..] == Transient(s, sorted);
      TransientDetermines(r, s, sorted);
      assert Head(r)[7] == Head(s)[7] && TRUE[0] != FALSE[0];
      assert Head(r)[1] == Head(s)[1] && Head(r)[2] == Head(s)[2] && Head(r)[3] == Head(s)[3]
          && Head(r)[4] == Head(s)[4];
      assert Head(r)[5] == Head(s)[5] && Head(r)[6] == Head(s)[6] && Head(r)[8] == Head(s)[8]
          && Head(r)[9] == Head(s)[9];
    }
  }

  lemma {:induction false} CountElems(l: seq<Field>)
    requires NoDup(l)
    ensures |Elems(l)| == |l|
  {
    if l != [] {
      CountElems(l[1..]);
      assert l == [l[0]] + l[1..];
      assert Elems(l) == {l[0]} + Elems(l[1..]) && l[0] !in Elems(l[1..]);
    }
  }

  /** With different argument counts it does not: two arguments and one transient entry look the same. */
  lemma {:induction false} ArgumentsLookTransient(r: Request, key: Field, value: Field,
                                                  sorted: set<Field> -> seq<Field>)
    requires Listing(sorted)
    ensures var s, t := r.(args := [key, value], transient := map[]), r.(args := [], transient := map[key := value]);
      s != t && DigestInput(s, sorted) == DigestInput(t, sorted)
  {
    var s, t := r.(args := [key, value], transient := map[]), r.(args := [], transient := map[key := value]);
    var none, one := sorted(s.transient.Keys), sorted(t.transient.Keys);
    CountElems(none);
    CountElems(one);
    assert one[0] in Elems(one) && one == [key];
    assert Pairs(t.transient, [key]) == [key, value] + Pairs(t.transient, [key][1..]);
    assert s.args + Transient(s, sorted) == [key, value] && t.args + Transient(t, sorted) == [key, value];
    HashedAlike(s, t, sorted);
  }
}
