/** The host-memory budget for expert tensors, include/idletoken_resource.h, in exact 64-bit arithmetic. */
module ResourceBudget {

  import opened Arithmetic

  const GIB: nat := 0x4000_0000

  const FIXED_RESERVE: u64 := 16 * GIB

  /** Three quarters of a GiB. */
  const MARGIN: u64 := 3 * GIB / 4

  /** Every operation below is checked to stay within 64 bits. */
  function PinnableBudget(ram: u64): u64 {
    var eightyPct: u64 := ram / 5 * 4 + ram % 5 * 4 / 5;
    var half: u64 := ram / 2;
    var minusFixed: u64 := if ram > FIXED_RESERVE then ram - FIXED_RESERVE else 0;
    var lowerBound := if minusFixed > half then minusFixed else half;
    var shared := if eightyPct < lowerBound then eightyPct else lowerBound;
    if shared > MARGIN then shared - MARGIN else 0
  }

  /** The formula of the graphics-memory budget over the integers: min(80%, max(RAM - 16 GiB, 50%)). */
  function Shared(ram: int): int {
    Min(4 * ram / 5, Max(ram - 16 * GIB, ram / 2))
  }

  /** No overflow and no underflow: the code computes the integer formula, less its margin, never below zero. */
  lemma BudgetIsFormula(ram: u64)
    ensures PinnableBudget(ram) == Max(0, Shared(ram) - 3 * GIB / 4)
  {
    assert ram == 5 * (ram / 5) + ram % 5;
    assert 4 * ram == 5 * (4 * (ram / 5)) + 4 * (ram % 5);
  }

  /** The documented three pieces: half of RAM up to 32 GiB, all but 16 GiB up to 80 GiB, 80 % above. */
  lemma BudgetInPieces(ram: u64)
    ensures PinnableBudget(ram) ==
      Max(0, (if ram <= 32 * GIB then ram / 2 else if ram <= 80 * GIB then ram - 16 * GIB else 4 * ram / 5)
             - 3 * GIB / 4)
  {
    BudgetIsFormula(ram);
  }

  lemma BudgetIsMonotone(a: u64, b: u64)
    requires a <= b
    ensures PinnableBudget(a) <= PinnableBudget(b)
  {
    BudgetIsFormula(a);
    BudgetIsFormula(b);
  }

  function ExpertUsable(total: u64, usable: u64, pinnable: u64, windows: bool, unified: bool): u64 {
    if unified then 0
    else if !windows then usable
    else
      var limit := if pinnable > 0 then pinnable else PinnableBudget(total);
      if limit < usable then limit else usable
  }

  /**
   * Never more than the usable RAM; on Windows never more than what can be locked, measured or estimated; and
   * nothing below those limits is given away.
   */
  lemma ExpertWithinBothGates(total: u64, usable: u64, pinnable: u64, windows: bool, unified: bool)
    ensures var r := ExpertUsable(total, usable, pinnable, windows, unified);
      && r <= usable && (unified ==> r == 0)
      && (windows && pinnable > 0 ==> r <= pinnable)
      && (windows && pinnable == 0 ==> r <= Max(0, Shared(total) - 3 * GIB / 4))
      && (!unified ==> r == usable
                       || (windows && r == if pinnable > 0 then pinnable else Max(0, Shared(total) - 3 * GIB / 4)))
  {
    BudgetIsFormula(total);
  }
}
