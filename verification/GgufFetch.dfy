/**
 * The two grow-and-retry loops around parse_header: fetch_header of scripts/measure_gguf.py and
 * fetch of scripts/mtp_manifest_inventory.py. A server answers a range request for the first
 * `want` bytes with that prefix of the file.
 */
module GgufFetch {

  import opened Bytes
  import opened GgufSpec
  import opened GgufLaws
  import opened GgufReader

  const MIB: nat := 0x10_0000
  const LIMIT: nat := 256 * MIB

  function Probe(file: seq<Byte>, want: nat): (p: seq<Byte>)
    ensures p <= file
  {
    if want <= |file| then file[..want] else file
  }

  datatype Fetched = Parsed(header: Header) | Refused(error: Error) | TooLarge

  /** What a loop that asks for no more than this probe can say. */
  function Verdict(file: seq<Byte>, keep: bool, probe: nat): Fetched {
    match Parse(Probe(file, probe), keep)
    case Got(h, _) => Parsed(h)
    case Fail(Short) => TooLarge
    case Fail(e) => Refused(e)
  }

  /** The last request fetch_header is willing to make: the first doubling at or above the limit. */
  function LastProbe(first: nat): (p: nat)
    requires first > 0
    ensures p >= LIMIT && p >= first && (p < 2 * LIMIT || p == first)
    decreases if first < LIMIT then LIMIT - first else 0
  {
    if first >= LIMIT then first else LastProbe(2 * first)
  }

  lemma ProbesGrow(file: seq<Byte>, want: nat, more: nat)
    requires want <= more
    ensures Probe(file, want) <= Probe(file, more)
  {
  }

  /** An answer other than Short survives any longer probe. */
  lemma VerdictSettles(file: seq<Byte>, keep: bool, want: nat, more: nat)
    requires want <= more && Parse(Probe(file, want), keep) != Fail(Short)
    ensures Parse(Probe(file, want), keep) == Parse(Probe(file, more), keep)
  {
    hide Parse;
    ProbesGrow(file, want, more);
    PrefixStability(Probe(file, want), Probe(file, more), keep);
  }

  method FetchHeader(file: seq<Byte>, keep: bool, first: nat) returns (r: Fetched)
    requires first > 0
    ensures r == Verdict(file, keep, LastProbe(first))
  {
    hide Parse;
    var want := first;
    while true
      invariant 0 < want && LastProbe(want) == LastProbe(first)
      decreases LastProbe(first) - want
    {
      var h, _ := ParseHeader(Probe(file, want), keep);
      if h != Fail(Short) {
        VerdictSettles(file, keep, want, LastProbe(want));
        return if h.Got? then Parsed(h.value) else Refused(h.error);
      }
      if want >= LIMIT {
        return TooLarge;
      }
      want := want * 2;
    }
  }

  /** fetch of the inventory, from the range request to the parse. */
  method FetchForInventory(file: seq<Byte>, small: bool) returns (r: Fetched)
    ensures r == Verdict(file, true, LIMIT)
  {
    hide Parse;
    var want := if small then MIB / 4 else 16 * MIB;
    ghost var doublings := if small then 10 else 4;
    assert Power2(10) == 1024 && Power2(4) == 16;
    while want <= LIMIT
      invariant if doublings < 0 then want == 2 * LIMIT else want * Power2(doublings) == LIMIT
      invariant want > LIMIT ==> Verdict(file, true, LIMIT) == TooLarge
      decreases doublings
    {
      var h, _ := ParseHeader(Probe(file, want), true);
      if h != Fail(Short) {
        VerdictSettles(file, true, want, LIMIT);
        return if h.Got? then Parsed(h.value) else Refused(h.error);
      }
      want := want * 2;
      doublings := doublings - 1;
    }
    return TooLarge;
  }

  function Power2(n: int): (p: nat)
    ensures p > 0
  {
    if n <= 0 then 1 else 2 * Power2(n - 1)
  }

  // ----- What the caller may rely on -----

  /** Two probe sizes that both settle the question settle it the same way: the file decides. */
  lemma AnswerIndependentOfProbe(file: seq<Byte>, keep: bool, f1: nat, f2: nat)
    requires f1 > 0 && f2 > 0
    ensures var r1, r2 := Verdict(file, keep, LastProbe(f1)), Verdict(file, keep, LastProbe(f2));
      r1 != TooLarge && r2 != TooLarge ==> r1 == r2
  {
    hide Parse;
    var p1, p2 := LastProbe(f1), LastProbe(f2);
    if Verdict(file, keep, p1) != TooLarge && Verdict(file, keep, p2) != TooLarge {
      if p1 <= p2 { VerdictSettles(file, keep, p1, p2); } else { VerdictSettles(file, keep, p2, p1); }
    }
  }

  ghost predicate ProbeIrrelevant(file: seq<Byte>, keep: bool) {
    forall f: nat | f > 0 :: Verdict(file, keep, LastProbe(f)) == Verdict(file, keep, LIMIT)
  }

  /**
   * The answer is the same for every probe size exactly when the first 256 MiB settle it, or nothing does:
   * the last request depends on the probe size, so a header that ends beyond 256 MiB is accepted from some
   * sizes and refused from others.
   */
  lemma ProbeMattersOnlyBeyondLimit(file: seq<Byte>, keep: bool)
    ensures ProbeIrrelevant(file, keep)
      <==> (Parse(Probe(file, LIMIT), keep) != Fail(Short) || Parse(file, keep) == Fail(Short))
  {
    hide Parse;
    assert LastProbe(LIMIT) == LIMIT;
    if Parse(Probe(file, LIMIT), keep) != Fail(Short) {
      forall f: nat | f > 0 ensures Verdict(file, keep, LastProbe(f)) == Verdict(file, keep, LIMIT) {
        VerdictSettles(file, keep, LIMIT, LastProbe(f));
      }
    } else if Parse(file, keep) == Fail(Short) {
      forall f: nat | f > 0 ensures Verdict(file, keep, LastProbe(f)) == TooLarge {
        PrefixStability(Probe(file, LastProbe(f)), file, keep);
      }
    } else {
      var f := |file| + LIMIT;
      assert LastProbe(f) == f && Probe(file, f) == file;
      assert Verdict(file, keep, LIMIT) == TooLarge && Verdict(file, keep, LastProbe(f)) != TooLarge;
    }
  }

  lemma {:induction false} PowerOfTwoProbe(first: nat, d: nat)
    requires first > 0 && first * Power2(d) == LIMIT
    ensures LastProbe(first) == LIMIT
    decreases d
  {
    if d > 0 {
      assert 2 * first * Power2(d - 1) == first * Power2(d);
      assert first < first * Power2(d) by { Doubling(first, Power2(d - 1)); }
      PowerOfTwoProbe(2 * first, d - 1);
    }
  }

  lemma Doubling(x: nat, y: nat)
    requires x > 0 && y > 0
    ensures x < x * (2 * y)
  {
    assert x * (2 * y) == x * y + x * y;
    assert x * y == x * (y - 1) + x;
  }

  /** The inventory starts at 256 KiB or 16 MiB; from there fetch_header says the same. */
  lemma LoopsAgree(file: seq<Byte>, small: bool)
    ensures Verdict(file, true, LastProbe(if small then MIB / 4 else 16 * MIB)) == Verdict(file, true, LIMIT)
  {
    hide Parse;
    assert Power2(10) == 1024 && Power2(4) == 16;
    PowerOfTwoProbe(MIB / 4, 10);
    PowerOfTwoProbe(16 * MIB, 4);
  }
}
