/**
 * The ledger key strings of lifecycle rows: different rows never share a key
 * (compatibility_service/pkg/lifecycle/ledger.go:73-90).
 */
module LedgerKeys {
  import opened Common
  import opened LifecycleLedger

  /** Percent-encoding of a path segment: injective, and without a slash. */
  ghost predicate SegmentEncoding(escape: string -> string) {
    && (forall s :: '/' !in escape(s))
    && (forall s, t :: escape(s) == escape(t) ==> s == t)
  }

  function Digit(n: nat): char
    requires n < 10
  {
    "0123456789"[n]
  }

  /** n in k decimal digits, padded with zeros. */
  function Decimal(n: nat, k: nat): (s: string)
    ensures |s| == k
  {
    if k == 0 then "" else Decimal(n / 10, k - 1) + [Digit(n % 10)]
  }

  function Power10(k: nat): nat {
    if k == 0 then 1 else 10 * Power10(k - 1)
  }

  function ChannelPrefix(escape: string -> string, channel: string): string {
    "_lifecycle/channels/" + escape(channel) + "/"
  }

  /** LedgerKey, LifecycleHighWatermarkKey and LifecycleIndexEntryKey. */
  function Text(escape: string -> string, key: Key): string {
    match key
    case DefinitionKey(channel, name) => ChannelPrefix(escape, channel) + "chaincodes/" + escape(name)
    case WatermarkKey(channel) => ChannelPrefix(escape, channel) + "index/high_watermark"
    case IndexKey(channel, number) => ChannelPrefix(escape, channel) + "index/" + Decimal(number, 20)
  }

  lemma {:induction false} DecimalInjective(m: nat, n: nat, k: nat)
    requires m < Power10(k) && n < Power10(k) && Decimal(m, k) == Decimal(n, k)
    ensures m == n
  {
    if k > 0 {
      var a, b := Decimal(m / 10, k - 1), Decimal(n / 10, k - 1);
      assert (a + [Digit(m % 10)])[..k - 1] == a && (b + [Digit(n % 10)])[..k - 1] == b;
      assert (a + [Digit(m % 10)])[k - 1] == Digit(m % 10) && (b + [Digit(n % 10)])[k - 1] == Digit(n % 10);
      DecimalInjective(m / 10, n / 10, k - 1);
    }
  }

  lemma {:induction false} FirstIsSlash(a: string, x: string)
    requires '/' !in a
    ensures (a + "/" + x)[0] == '/' <==> a == ""
  {
    if a != "" {
      assert (a + "/" + x)[0] == a[0];
    }
  }

  /** The first slash separates a slash-free segment from the rest. */
  lemma {:induction false} CutAtSlash(a: string, x: string, b: string, y: string)
    requires '/' !in a && '/' !in b && a + "/" + x == b + "/" + y
    ensures a == b && x == y
  {
    FirstIsSlash(a, x);
    FirstIsSlash(b, y);
    if a == "" {
      assert (a + "/" + x)[1..] == x && (b + "/" + y)[1..] == y;
    } else {
      assert (a + "/" + x)[0] == a[0] && (a + "/" + x)[1..] == a[1..] + "/" + x;
      assert (b + "/" + y)[0] == b[0] && (b + "/" + y)[1..] == b[1..] + "/" + y;
      CutAtSlash(a[1..], x, b[1..], y);
      assert a == [a[0]] + a[1..] && b == [b[0]] + b[1..];
    }
  }

  function Tail(escape: string -> string, key: Key): string {
    match key
    case DefinitionKey(_, name) => "chaincodes/" + escape(name)
    case WatermarkKey(_) => "index/high_watermark"
    case IndexKey(_, number) => "index/" + Decimal(number, 20)
  }

  lemma {:induction false} TextSplits(escape: string -> string, key: Key)
    ensures Text(escape, key) == "_lifecycle/channels/" + (escape(key.channel) + "/" + Tail(escape, key))
  {
  }

  lemma {:induction false} SamePrefix(p: string, x: string, y: string)
    requires p + x == p + y
    ensures x == y
  {
    assert (p + x)[|p|..] == x && (p + y)[|p|..] == y;
  }

  /** Different rows have different keys, over all channels, names and 64-bit index numbers. */
  lemma {:induction false} KeysNeverCollide(escape: string -> string, a: Key, b: Key)
    requires SegmentEncoding(escape) && Text(escape, a) == Text(escape, b)
    requires (a.IndexKey? ==> a.number <= MAX_UINT64) && (b.IndexKey? ==> b.number <= MAX_UINT64)
    ensures a == b
  {
    TextSplits(escape, a);
    TextSplits(escape, b);
    SamePrefix("_lifecycle/channels/", escape(a.channel) + "/" + Tail(escape, a),
               escape(b.channel) + "/" + Tail(escape, b));
    CutAtSlash(escape(a.channel), Tail(escape, a), escape(b.channel), Tail(escape, b));
    SameTail(escape, a, b);
  }

  lemma {:induction false} SameTail(escape: string -> string, a: Key, b: Key)
    requires SegmentEncoding(escape) && a.channel == b.channel && Tail(escape, a) == Tail(escape, b)
    requires (a.IndexKey? ==> a.number <= MAX_UINT64) && (b.IndexKey? ==> b.number <= MAX_UINT64)
    ensures a == b
  {
    var x, y := Tail(escape, a), Tail(escape, b);
    assert a.DefinitionKey? <==> x[0] == 'c';
    assert b.DefinitionKey? <==> y[0] == 'c';
    if a.DefinitionKey? {
      SamePrefix("chaincodes/", escape(a.name), escape(b.name));
    } else {
      assert a.WatermarkKey? <==> |x| == 20;
      assert b.WatermarkKey? <==> |y| == 20;
      if a.IndexKey? {
        SamePrefix("index/", Decimal(a.number, 20), Decimal(b.number, 20));
        Power20();
        DecimalInjective(a.number, b.number, 20);
      }
    }
  }

  /** Twenty digits hold every 64-bit number. */
  lemma {:induction false} Power20()
    ensures MAX_UINT64 < Power10(20)
  {
    assert Power10(5) == 100000;
    assert Power10(10) == 100000 * Power10(5);
    assert Power10(15) == 100000 * Power10(10);
    assert Power10(20) == 100000 * Power10(15);
  }
}
