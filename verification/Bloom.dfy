/** packages/golib/bloom/bloom.go: a Bloom filter over 64-bit words. SHA-256 is any function giving two
    64-bit numbers; sizing and the fill ratio's division are floating point and not modelled. */
module Bloom {
  import opened BitPositions
  import opened Division
  import opened GoInts
  import opened Words
  import Popcount

  type Data = seq<bv8>

  type Hash = Data -> (nat, nat)

  datatype Config = Config(hash: Hash, size: nat, k: nat)

  ghost predicate WellSized(cfg: Config) {
    0 < cfg.size < MAX64 && cfg.k < MAX64
  }

  /** The i-th probe, with uint64 arithmetic. */
  function Position(cfg: Config, data: Data, i: nat): (p: nat)
    requires cfg.size > 0
    ensures p < cfg.size
  {
    var (h1, h2) := cfg.hash(data);
    ((h1 + i * h2 % MAX64) % MAX64) % cfg.size
  }

  /** The i-th probe is the sum of the first hash and i times the second, as a 64-bit register holds it,
      reduced to the size. */
  lemma PositionIs(cfg: Config, data: Data, i: nat, register: nat, wraps: nat)
    requires cfg.size > 0 && register < MAX64
    requires cfg.hash(data).0 + i * cfg.hash(data).1 == register + wraps * MAX64
    ensures Position(cfg, data, i) == register % cfg.size
  {
    var (h1, h2) := cfg.hash(data);
    var q, r := i * h2 / MAX64, i * h2 % MAX64;
    assert i * h2 == q * MAX64 + r;
    assert h1 + r == register + (wraps - q) * MAX64;
    ModIs(h1 + r, wraps - q, register, MAX64);
  }

  /** While nothing wraps around, two probes of an item fall together exactly when the size divides their
      distance times the second hash. */
  lemma ProbesMeetExactly(cfg: Config, data: Data, i: nat, j: nat)
    requires cfg.size > 0 && i <= j && cfg.hash(data).0 + j * cfg.hash(data).1 < MAX64
    ensures Position(cfg, data, 0) == cfg.hash(data).0 % cfg.size
    ensures Position(cfg, data, i) == Position(cfg, data, j) <==> (j - i) * cfg.hash(data).1 % cfg.size == 0
  {
    var (h1, h2) := cfg.hash(data);
    var a, b := h1 + i * h2, h1 + j * h2;
    assert b - a == (j - i) * h2 && (j - i) * h2 >= 0 && i * h2 >= 0;
    PositionIs(cfg, data, 0, h1, 0);
    PositionIs(cfg, data, i, a, 0);
    PositionIs(cfg, data, j, b, 0);
    SameRest(a, b, cfg.size);
  }

  lemma SameRest(a: nat, b: nat, n: nat)
    requires n > 0 && a <= b
    ensures a % n == b % n <==> (b - a) % n == 0
  {
    var p, q := a / n, b / n;
    assert a == p * n + a % n && b == q * n + b % n;
    if a % n == b % n {
      assert b - a == (q - p) * n;
      ModIs(b - a, q - p, 0, n);
    }
    if (b - a) % n == 0 {
      var k := (b - a) / n;
      assert b - a == k * n;
      assert b == (p + k) * n + a % n;
      ModIs(b, p + k, a % n, n);
    }
  }

  /** The first n probes of an item. */
  ghost function Probes(cfg: Config, data: Data, n: nat): set<nat>
    requires cfg.size > 0
  {
    if n == 0 then {} else Probes(cfg, data, n - 1) + {Position(cfg, data, n - 1)}
  }

  datatype Op = Add(data: Data) | Clear

  /** What a filter that had nothing set holds after these operations. */
  ghost function Run(cfg: Config, ops: seq<Op>): set<nat>
    requires cfg.size > 0
  {
    if ops == [] then {} else
    match ops[|ops| - 1]
    case Add(data) => Run(cfg, ops[..|ops| - 1]) + Probes(cfg, data, cfg.k)
    case Clear => {}
  }

  /** Added, and not cleared since. */
  predicate Present(ops: seq<Op>, data: Data) {
    ops != [] &&
    match ops[|ops| - 1]
    case Add(d) => d == data || Present(ops[..|ops| - 1], data)
    case Clear => false
  }

  /** What Contains answers. */
  ghost predicate Claims(cfg: Config, view: set<nat>, data: Data)
    requires cfg.size > 0
  {
    Probes(cfg, data, cfg.k) <= view
  }

  /** No false negatives: what was added and not cleared since is claimed, whatever else happened. */
  lemma {:induction false} NoFalseNegatives(cfg: Config, ops: seq<Op>, data: Data)
    requires cfg.size > 0 && Present(ops, data)
    ensures Claims(cfg, Run(cfg, ops), data)
  {
    var before, last := ops[..|ops| - 1], ops[|ops| - 1];
    if last.data != data {
      NoFalseNegatives(cfg, before, data);
    }
  }

  /** Some item present probes p. */
  ghost predicate Probed(cfg: Config, ops: seq<Op>, p: nat)
    requires cfg.size > 0
  {
    exists d :: Present(ops, d) && p in Probes(cfg, d, cfg.k)
  }

  /** A position is set exactly when some item present probes it, */
  lemma {:induction false} SetWhenProbed(cfg: Config, ops: seq<Op>, p: nat)
    requires cfg.size > 0
    ensures p in Run(cfg, ops) <==> Probed(cfg, ops, p)
  {
    if ops != [] {
      var before, last := ops[..|ops| - 1], ops[|ops| - 1];
      SetWhenProbed(cfg, before, p);
      if last.Add? {
        ProbedAfterAdd(cfg, before, last.data, p);
        assert ops == before + [last];
      }
    }
  }

  lemma ProbedAfterAdd(cfg: Config, before: seq<Op>, data: Data, p: nat)
    requires cfg.size > 0
    ensures Probed(cfg, before + [Op.Add(data)], p) <==> Probed(cfg, before, p) || p in Probes(cfg, data, cfg.k)
  {
    hide Probes;
    var ops := before + [Op.Add(data)];
    assert ops[..|ops| - 1] == before;
    assert forall d :: Present(ops, d) <==> d == data || Present(before, d);
  }

  /** so a claim is made exactly when every probe of the item is shared with items present. */
  lemma ClaimsExactly(cfg: Config, ops: seq<Op>, data: Data)
    requires cfg.size > 0
    ensures Claims(cfg, Run(cfg, ops), data) <==> forall p | p in Probes(cfg, data, cfg.k) :: Probed(cfg, ops, p)
  {
    hide Probed, Probes, Run;
    forall p | p in Probes(cfg, data, cfg.k) ensures p in Run(cfg, ops) <==> Probed(cfg, ops, p) {
      SetWhenProbed(cfg, ops, p);
    }
  }

  class Filter {
    const cfg: Config
    const bits: array<Word>
    var n: nat

    ghost predicate Valid() {
      WellSized(cfg) && cfg.size == 64 * bits.Length
    }

    ghost function Positions(): set<nat>
      reads bits
    {
      View(bits[..])
    }

    /** New, from the numbers of bits and of hash functions that its formulas ask for. */
    constructor (hash: Hash, m: nat, k: nat)
      requires 0 < m && m + 63 < MAX64 && k < MAX64
      ensures Valid() && fresh(bits) && Positions() == {} && n == 0
      ensures cfg.hash == hash && cfg.size % 64 == 0 && m <= cfg.size < m + 64
      ensures cfg.k >= 1 && (k >= 1 ==> cfg.k == k)
    {
      var words := (m + 63) / 64;
      cfg := Config(hash, 64 * words, if k < 1 then 1 else k);
      bits := new Word[words](_ => 0);
      n := 0;
      new;
      AllClear(bits[..]);
    }

    method Add(data: Data)
      requires Valid()
      modifies this, bits
      ensures Valid() && Positions() == old(Positions()) + Probes(cfg, data, cfg.k)
      ensures n == (old(n) + 1) % MAX64
    {
      for i := 0 to cfg.k
        invariant Positions() == old(Positions()) + Probes(cfg, data, i)
        invariant n == old(n)
      {
        var pos := Position(cfg, data, i);
        SetWritten(bits[..], pos);
        bits[pos / 64] := Or(bits[pos / 64], Mask(pos % 64));
      }
      n := (n + 1) % MAX64;
    }

    method Contains(data: Data) returns (r: bool)
      requires Valid()
      ensures r <==> Claims(cfg, Positions(), data)
    {
      ghost var all := Probes(cfg, data, cfg.k);
      for i := 0 to cfg.k
        invariant Probes(cfg, data, i) <= Positions()
      {
        var pos := Position(cfg, data, i);
        ProbesGrow(cfg, data, i, cfg.k);
        if And(bits[pos / 64], Mask(pos % 64)) == 0 {
          assert pos !in Positions();
          return false;
        }
        assert In(bits[..], pos);
      }
      return true;
    }

    method Clear()
      requires Valid()
      modifies this, bits
      ensures Valid() && Positions() == {} && n == 0
    {
      for i := 0 to bits.Length
        invariant forall j | 0 <= j < i :: bits[j] == 0
      {
        bits[i] := 0;
      }
      AllClear(bits[..]);
      n := 0;
    }

    /** The sum FillRatio divides by the size. */
    method OnesSet() returns (total: nat)
      ensures total == |Positions()|
    {
      total := 0;
      for i := 0 to bits.Length
        invariant total == OnesOf(bits[..i])
      {
        assert bits[..i + 1][..i] == bits[..i];
        var count := Popcount.Parallel(bits[i]);
        total := total + count;
      }
      assert bits[..bits.Length] == bits[..];
      CountsPositions(bits[..]);
    }
  }

  lemma {:induction false} ProbesGrow(cfg: Config, data: Data, i: nat, n: nat)
    requires cfg.size > 0 && i < n
    ensures Position(cfg, data, i) in Probes(cfg, data, n)
  {
    if i < n - 1 {
      ProbesGrow(cfg, data, i, n - 1);
    }
  }
}
