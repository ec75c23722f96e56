/** Erasure-code tactics: how many shards a volume has and which availability zone each is in. */
module CodeMode {

  import opened Arithmetic

  datatype Tactic = Tactic(N: nat, M: nat, L: nat, AZCount: nat, PutQuorum: nat, MinShardSize: nat)
  {
    ghost predicate Valid() {
      && N > 0 && M > 0 && AZCount > 0 && PutQuorum > 0
      && Modulo(N, AZCount) == 0 && Modulo(M, AZCount) == 0 && Modulo(L, AZCount) == 0
    }

    /** Losing one zone still leaves enough global shards to decode. */
    predicate SurvivesZone()
      requires AZCount > 0
    {
      ZoneN() + ZoneM() <= M
    }

    function Total(): nat { N + M + L }

    // each zone's share of the data, the parity and the local parity

    function ZoneN(): nat { Quotient(N, AZCount) }

    function ZoneM(): nat { Quotient(M, AZCount) }

    function ZoneL(): nat { Quotient(L, AZCount) }

    /** The shards of one zone: its data, its parity and its local parity. */
    function Zone(az: nat): seq<nat>
      requires AZCount > 0
    {
      ThreeSpans(Times(az, ZoneN()), ZoneN(), N + Times(az, ZoneM()), ZoneM(), N + M + Times(az, ZoneL()), ZoneL())
    }

    function ZoneOf(idx: nat): nat
      requires AZCount > 0
    {
      if idx < N then Quotient(idx, ZoneN())
      else if idx < N + M then Quotient(idx - N, ZoneM())
      else Quotient(idx - N - M, ZoneL())
    }
  }

  function ThreeSpans(a: nat, n: nat, b: nat, m: nat, c: nat, l: nat): seq<nat> {
    Span(a, n) + Span(b, m) + Span(c, l)
  }

  function Span(start: nat, len: nat): seq<nat> {
    seq(len, i requires 0 <= i => start + i)
  }

  /** The tactics of the code modes, in the order of their codes 1 to 13. */
  function Tactics(): seq<Tactic> {
    [ Tactic(15, 12, 0, 3, 24, 2048),
      Tactic(6, 6, 0, 3, 11, 2048),
      Tactic(16, 20, 2, 2, 34, 2048),
      Tactic(6, 10, 2, 2, 14, 2048),
      Tactic(6, 3, 3, 3, 9, 2048),
      Tactic(6, 6, 0, 3, 11, 0),
      Tactic(6, 6, 0, 3, 11, 512),
      Tactic(4, 4, 2, 2, 6, 2048),
      Tactic(12, 4, 0, 1, 15, 2048),
      Tactic(16, 4, 0, 1, 19, 2048),
      Tactic(3, 3, 0, 1, 5, 2048),
      Tactic(10, 4, 0, 1, 13, 2048),
      Tactic(6, 3, 0, 1, 8, 2048) ]
  }

  lemma TacticsAreValid(k: nat)
    requires k < |Tactics()|
    ensures Tactics()[k].Valid()
    ensures Tactics()[k].N < Tactics()[k].PutQuorum <= Tactics()[k].N + Tactics()[k].M
    ensures Tactics()[k].L > 0 ==> Tactics()[k].SurvivesZone()
  {
  }

  lemma ShareBound(n: nat, count: nat, az: nat)
    requires count > 0 && Modulo(n, count) == 0 && az < count
    ensures Times(az, Quotient(n, count)) + Quotient(n, count) <= n == Times(count, Quotient(n, count))
    ensures n > 0 ==> Quotient(n, count) > 0
  {
    hide Quotient, Modulo, Times;
    var d := Quotient(n, count);
    QuotientFacts(n, count);
    TimesCommutes(d, count);
    TimesMonotone(az + 1, count, d);
    TimesNext(az, d);
    if d == 0 {
      TimesZero(count);
    }
  }

  lemma InSpan(start: nat, len: nat, i: nat)
    ensures i in Span(start, len) <==> start <= i < start + len
  {
    if start <= i < start + len {
      assert Span(start, len)[i - start] == i;
    }
  }

  lemma InThreeSpans(a: nat, n: nat, b: nat, m: nat, c: nat, l: nat, i: nat)
    ensures i in ThreeSpans(a, n, b, m, c, l) <==>
            a <= i < a + n || b <= i < b + m || c <= i < c + l
  {
    InSpan(a, n, i);
    InSpan(b, m, i);
    InSpan(c, l, i);
  }

  /** The zone of a shard of one kind, and that it exists. */
  lemma ZoneOfKind(x: nat, total: nat, count: nat, az: nat)
    requires count > 0 && Modulo(total, count) == 0 && az < count && x < total
    ensures var d := Quotient(total, count);
      && d > 0 && (Quotient(x, d) == az <==> Times(az, d) <= x < Times(az, d) + d)
      && Quotient(x, d) < count
  {
    hide Quotient, Modulo, Times;
    ShareBound(total, count, az);
    var d := Quotient(total, count);
    var q := Quotient(x, d);
    DivBounds(x, d, az);
    DivBounds(x, d, q);
    if q >= count {
      TimesMonotone(count, q, d);
    }
  }

  /** Every shard is in exactly one zone. */
  lemma ZonesPartition(t: Tactic, az: nat, idx: nat)
    requires t.Valid() && az < t.AZCount && idx < t.Total()
    ensures t.ZoneN() > 0 && t.ZoneM() > 0
    ensures idx in t.Zone(az) <==> t.ZoneOf(idx) == az
    ensures t.ZoneOf(idx) < t.AZCount
  {
    hide Quotient, Modulo, Times, ThreeSpans;
    ShareBound(t.N, t.AZCount, az);
    ShareBound(t.M, t.AZCount, az);
    ShareBound(t.L, t.AZCount, az);
    var n, m, l := t.ZoneN(), t.ZoneM(), t.ZoneL();
    InThreeSpans(Times(az, n), n, t.N + Times(az, m), m, t.N + t.M + Times(az, l), l, idx);
    if idx < t.N {
      ZoneOfKind(idx, t.N, t.AZCount, az);
    } else if idx < t.N + t.M {
      ZoneOfKind(idx - t.N, t.M, t.AZCount, az);
    } else {
      ZoneOfKind(idx - t.N - t.M, t.L, t.AZCount, az);
    }
  }

  /** A zone lists no shard twice and none outside the volume; its global shards come first. */
  lemma ZoneIsSimple(t: Tactic, az: nat)
    requires t.Valid() && az < t.AZCount
    ensures forall i, j | 0 <= i < j < |t.Zone(az)| :: t.Zone(az)[i] != t.Zone(az)[j]
    ensures forall i | 0 <= i < |t.Zone(az)| :: t.Zone(az)[i] < t.Total()
    ensures |t.Zone(az)| == t.ZoneN() + t.ZoneM() + t.ZoneL()
    ensures forall i | 0 <= i < |t.Zone(az)| :: t.Zone(az)[i] < t.N + t.M <==> i < t.ZoneN() + t.ZoneM()
  {
    hide Quotient, Modulo, Times;
    ShareBound(t.N, t.AZCount, az);
    ShareBound(t.M, t.AZCount, az);
    ShareBound(t.L, t.AZCount, az);
  }
}
