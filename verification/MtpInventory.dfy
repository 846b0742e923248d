/** The tail-block byte total of scripts/mtp_manifest_inventory.py over the shards of a model. */
module MtpInventory {

  import opened GgufMeasure
  import opened GgufMeasureLaws
  import opened GgufSpec
  import opened Options
  import opened TensorNames

  datatype Part = Part(tensors: seq<Tensor>, dataStart: nat, fileBytes: int) {
    function Directory(): seq<Tensor> { SortByOffset(tensors) }
    function DataLen(): int { fileBytes - dataStart }
  }

  /** The number the pattern blk\.(\d+)\. finds at the front of a name. */
  function BlockIndexOf(name: Name): Option<nat> {
    if !IsBlock(name) then None else
    var rest := name[4..];
    var k := DigitRun(rest);
    if k == 0 || k == |rest| || rest[k] != DOT then None else Some(Decimal(rest[..k]))
  }

  /** The pattern, at the front of the name. */
  ghost predicate IsBlockName(name: Name, digits: Name, rest: Name) {
    digits != [] && AllDigits(digits) && name == BLK + (digits + ([DOT] + rest))
  }

  lemma BlockIndexIff(name: Name, n: nat)
    ensures BlockIndexOf(name) == Some(n) <==>
            exists digits, rest :: IsBlockName(name, digits, rest) && Decimal(digits) == n
  {
    hide Decimal;
    if BlockIndexOf(name) == Some(n) {
      var tail := name[4..];
      var k := DigitRun(tail);
      assert tail == tail[..k] + ([DOT] + tail[k + 1..]) && name == BLK + tail;
      assert IsBlockName(name, tail[..k], tail[k + 1..]);
    }
    if digits, rest :| IsBlockName(name, digits, rest) && Decimal(digits) == n {
      var tail := digits + ([DOT] + rest);
      assert name[4..] == tail && ([DOT] + rest)[0] == DOT;
      DigitRunIs(digits, [DOT] + rest);
      assert tail[..|digits|] == digits;
    }
  }

  /** The name belongs to a block numbered at least `first`. */
  ghost predicate InTail(name: Name, first: nat) {
    exists digits, rest :: IsBlockName(name, digits, rest) && Decimal(digits) >= first
  }

  lemma InTailIff(name: Name, first: nat)
    ensures InTail(name, first) <==> BlockIndexOf(name).Some? && BlockIndexOf(name).value >= first
  {
    hide BlockIndexOf;
    if digits, rest :| IsBlockName(name, digits, rest) && Decimal(digits) >= first {
      BlockIndexIff(name, Decimal(digits));
    }
    if BlockIndexOf(name).Some? {
      BlockIndexIff(name, BlockIndexOf(name).value);
    }
  }

  datatype Tail = Total(bytes: int) | InvalidOffsets

  /** Every tail tensor of the first n entries occupies at least one byte. */
  ghost predicate TailPositive(part: Part, first: nat, n: nat)
    requires n <= |part.Directory()|
  {
    forall i | 0 <= i < n :: InTail(part.Directory()[i].name, first) ==> Size(part.Directory(), i, part.DataLen()) > 0
  }

  ghost predicate AllTailsPositive(parts: seq<Part>, first: nat) {
    forall k | 0 <= k < |parts| :: TailPositive(parts[k], first, |parts[k].Directory()|)
  }

  ghost function TailOf(part: Part, first: nat): int {
    SumWhere(part.Directory(), part.DataLen(), |part.Directory()|, name => InTail(name, first))
  }

  ghost function TailSum(parts: seq<Part>, first: nat): int {
    if parts == [] then 0 else TailSum(parts[..|parts| - 1], first) + TailOf(parts[|parts| - 1], first)
  }

  method TailOfPart(part: Part, first: nat, start: int) returns (r: Tail)
    ensures r == if TailPositive(part, first, |part.Directory()|) then Total(start + TailOf(part, first))
                 else InvalidOffsets
  {
    hide InTail;
    hide BlockIndexOf;
    var tensors := part.Directory();
    var total := start;
    for i := 0 to |tensors|
      invariant TailPositive(part, first, i)
      invariant total == start + SumWhere(tensors, part.DataLen(), i, name => InTail(name, first))
    {
      var block := BlockIndexOf(tensors[i].name);
      InTailIff(tensors[i].name, first);
      if block.Some? && block.value >= first {
        var end := if i + 1 < |tensors| then tensors[i + 1].offset else part.fileBytes - part.dataStart;
        assert end - tensors[i].offset == Size(tensors, i, part.DataLen());
        if end <= tensors[i].offset {
          return InvalidOffsets;
        }
        total := total + (end - tensors[i].offset);
      }
    }
    return Total(total);
  }

  /** The two nested loops of inventory, over blocks numbered blocks - layers and up. */
  method InventoryTail(parts: seq<Part>, blocks: nat, layers: nat) returns (r: Tail)
    requires 0 < layers < blocks
    ensures r == if AllTailsPositive(parts, blocks - layers) then Total(TailSum(parts, blocks - layers))
                 else InvalidOffsets
  {
    hide TailOf;
    hide TailPositive;
    var total := 0;
    for k := 0 to |parts|
      invariant AllTailsPositive(parts[..k], blocks - layers)
      invariant total == TailSum(parts[..k], blocks - layers)
    {
      var t := TailOfPart(parts[k], blocks - layers, total);
      if t.InvalidOffsets? { return InvalidOffsets; }
      assert parts[..k + 1][..k] == parts[..k];
      total := t.bytes;
    }
    assert parts[..|parts|] == parts;
    return Total(total);
  }

  // ----- Against the accounting of measure -----

  function Measured(part: Part): GgufMeasure.Measured {
    Measurement(part.tensors, part.dataStart, part.fileBytes)
  }

  /** The layer bytes that measure reports, summed over the shards. */
  function LayerSum(parts: seq<Part>): int
    requires forall k | 0 <= k < |parts| :: Measured(parts[k]).Measured?
  {
    if parts == [] then 0 else LayerSum(parts[..|parts| - 1]) + Measured(parts[|parts| - 1]).totals.layer
  }

  lemma TailIsBlock(name: Name, first: nat)
    ensures InTail(name, first) ==> IsBlock(name)
  {
  }

  lemma TailWithinLayer(part: Part, first: nat)
    requires Measured(part).Measured?
    ensures 0 <= TailOf(part, first) <= Measured(part).totals.layer
  {
    hide Account;
    hide InTail;
    hide IsBlock;
    hide SumWhere;
    var s, dataLen := part.Directory(), part.DataLen();
    AccountSplits(s, dataLen, |s|);
    forall j | 0 <= j < |s| ensures InTail(s[j].name, first) ==> IsBlock(s[j].name) {
      TailIsBlock(s[j].name, first);
    }
    SumWhereMonotone(s, dataLen, |s|, name => InTail(name, first), IsBlock);
  }

  /** On shards that measure accepts, the tail total is at most their layer bytes. */
  lemma {:induction false} TailAtMostLayers(parts: seq<Part>, first: nat)
    requires forall k | 0 <= k < |parts| :: Measured(parts[k]).Measured?
    ensures 0 <= TailSum(parts, first) <= LayerSum(parts) && (parts == [] ==> LayerSum(parts) == 0)
  {
    hide TailOf;
    hide Measured;
    if parts != [] {
      TailAtMostLayers(parts[..|parts| - 1], first);
      TailWithinLayer(parts[|parts| - 1], first);
    }
  }

  /**
   * measure accepts a shard whose last tail tensor is empty, inventory refuses it: the two loops
   * agree on a shard that measure accepts exactly when no tail tensor in it has zero bytes.
   */
  lemma InventoryRefusesEmptyTail(part: Part, first: nat)
    requires Measured(part).Measured?
    ensures TailPositive(part, first, |part.Directory()|)
      <==> forall i | 0 <= i < |part.Directory()| ::
        InTail(part.Directory()[i].name, first) ==> Size(part.Directory(), i, part.DataLen()) != 0
  {
  }

  lemma EmptyTailExample()
    ensures var part := Part([Tensor(BLK + [0x31, DOT], [], 0)], 8, 8);
      Measured(part).Measured? && !TailPositive(part, 1, |part.Directory()|)
  {
    var x := Tensor(BLK + [0x31, DOT], [], 0);
    var part := Part([x], 8, 8);
    assert [x][1..] == [] && SortByOffset([]) == [];
    assert part.Directory() == [x];
    MeasureSucceedsIff([x], 8, 8);
    assert x in [x];
    assert IsBlockName(x.name, [0x31], []) && [0x31][..0] == [];
    assert Decimal([0x31]) == 1;
  }
}
