/** Bank colouring: an allocation over several banks is cut into equal runs, one bank after another. */
module MemoryBanks {
  import opened Arithmetic

  /** The one-bit masks set in `mask`, lowest first; `unit` is the weight of its lowest bit. */
  function SingleBanks(mask: nat, unit: nat): (r: seq<nat>)
  {
    if mask == 0 then []
    else (if mask % 2 == 1 then [unit] else []) + SingleBanks(mask / 2, unit * 2)
  }

  lemma {:induction false} SomeBank(mask: nat, unit: nat)
    requires mask > 0
    ensures SingleBanks(mask, unit) != []
  {
    if mask % 2 == 0 { SomeBank(mask / 2, unit * 2); }
  }

  /** The bank of an address in an allocation of `size` page-aligned bytes from `start`. */
  function BankOf(mask: nat, start: nat, size: nat, va: nat): nat {
    var banks := SingleBanks(mask, 1);
    if |banks| == 0 then 0
    else if |banks| == 1 then banks[0]
    else
      var colorSize := size / |banks|;
      if colorSize == 0 || va < start then banks[0] else banks[(va - start) / colorSize % |banks|]
  }

  lemma BankIsOneOf(mask: nat, start: nat, size: nat, va: nat)
    ensures if mask == 0 then BankOf(mask, start, size, va) == 0
            else BankOf(mask, start, size, va) in SingleBanks(mask, 1)
  {
    if mask > 0 { SomeBank(mask, 1); }
  }

  /** The bit of `mask` with this weight. */
  predicate HasBit(mask: nat, weight: nat)
    requires weight > 0
  {
    mask / weight % 2 == 1
  }

  /** The banks of an allocation, found by a mask shifted up past the highest one; masks with bit 31 set are excluded,
      because a 32-bit mask would never pass them. */
  class MemoryBankHelper {
    const memoryBanks: nat
    const initialGfxAddress: nat
    const size: nat
    var colorSize: nat
    var singleBanks: seq<nat>

    constructor (memoryBanks: nat, initialGfxAddress: nat, size: nat)
      requires memoryBanks < 0x8000_0000
      ensures this.memoryBanks == memoryBanks && this.initialGfxAddress == initialGfxAddress && this.size == size && Valid()
    {
      this.memoryBanks := memoryBanks;
      this.initialGfxAddress := initialGfxAddress;
      this.size := size;
      var banks := ScanBanks(memoryBanks);
      singleBanks := banks;
      // split memory evenly to banks
      colorSize := if |banks| > 0 then size / |banks| else 1;
    }

    /** Shift a mask up through the banks; the first bit is looked at even when there are none. */
    static method ScanBanks(memoryBanks: nat) returns (banks: seq<nat>)
      ensures banks == SingleBanks(memoryBanks, 1)
    {
      banks := [];
      var mask: nat, rest: nat := 1, memoryBanks;
      FirstBit(memoryBanks);
      if HasBit(memoryBanks, mask) { banks := banks + [mask]; }
      mask, rest := mask * 2, rest / 2;
      while mask <= memoryBanks
        invariant mask > 0 && SplitAt(memoryBanks, rest, mask)
        invariant banks + SingleBanks(rest, mask) == SingleBanks(memoryBanks, 1)
        decreases memoryBanks + 1 - mask
      {
        hide SplitAt, HasBit;
        NextBit(memoryBanks, rest, mask);
        assert banks + SingleBanks(rest, mask) == banks + (if rest % 2 == 1 then [mask] else []) + SingleBanks(rest / 2, mask * 2);
        if HasBit(memoryBanks, mask) { banks := banks + [mask]; }
        mask, rest := mask * 2, rest / 2;
      }
      NothingAbove(memoryBanks, rest, mask);
      assert banks + [] == banks;
    }

    predicate Valid()
      reads this
    {
      singleBanks == SingleBanks(memoryBanks, 1) && colorSize == (if |singleBanks| > 0 then size / |singleBanks| else 1)
    }

    /** Equal runs of the allocation go to one bank after another. */
    method GetMemoryBank(gfxAddress: nat) returns (bank: nat)
      requires Valid() && gfxAddress >= initialGfxAddress && (|singleBanks| > 1 ==> colorSize > 0)
      ensures bank == BankOf(memoryBanks, initialGfxAddress, size, gfxAddress)
    {
      if |singleBanks| == 0 { return 0; }
      if |singleBanks| == 1 { return singleBanks[0]; }
      return singleBanks[(gfxAddress - initialGfxAddress) / colorSize % |singleBanks|];
    }
  }

  /** `rest` is what is left of the mask above this weight. */
  predicate SplitAt(banks: nat, rest: nat, weight: nat) {
    rest * weight <= banks < rest * weight + weight
  }

  lemma FirstBit(banks: nat)
    ensures HasBit(banks, 1) <==> banks % 2 == 1
    ensures SplitAt(banks, banks / 2, 2)
    ensures SingleBanks(banks, 1) == (if banks % 2 == 1 then [1] else []) + SingleBanks(banks / 2, 2)
  {
  }

  lemma NextBit(banks: nat, rest: nat, weight: nat)
    requires weight > 0 && SplitAt(banks, rest, weight)
    ensures HasBit(banks, weight) <==> rest % 2 == 1
    ensures SplitAt(banks, rest / 2, weight * 2)
  {
    DivisionUnique(banks, weight, rest, banks - rest * weight);
    var half := rest / 2;
    assert rest == 2 * half || rest == 2 * half + 1;
    assert 2 * half * weight == half * (weight * 2);
    if rest == 2 * half + 1 { assert rest * weight == 2 * half * weight + weight; }
  }

  lemma NothingAbove(banks: nat, rest: nat, weight: nat)
    requires weight > banks && SplitAt(banks, rest, weight)
    ensures rest == 0
  {
    if rest >= 1 { MulAtLeast(rest, weight); }
  }

  /** Colouring is even: with c banks, each run of the allocation has the same size and the banks take turns. */
  lemma BanksTakeTurns(mask: nat, start: nat, size: nat, k: nat, offset: nat)
    requires var banks := SingleBanks(mask, 1); |banks| > 1 && size / |banks| > offset
    ensures var banks := SingleBanks(mask, 1); var run := size / |banks|;
      BankOf(mask, start, size, start + k * run + offset) == banks[k % |banks|]
  {
    var banks := SingleBanks(mask, 1);
    var run := size / |banks|;
    DivisionUnique(k * run + offset, run, k, offset);
  }
}
