/**
 * The `AR` byte of MMCFBlock (MMCFBlock.h:488-517): which parts of the
 * abstract representation exist and which formulation was chosen. The two
 * updates of cpp:989 and cpp:1179 are done as C does them: the operands are
 * promoted to a 32-bit `int`, combined, and truncated back to `unsigned char`.
 */
module ArBits {

  const HasVar: bv8 := 1
  const HasMutual: bv8 := 2
  const KnapsackRelaxation: bv8 := 4
  const AddFixedCosts: bv8 := 8
  const Slc: bv8 := 8

  /** Conversion of an `int` configuration value to `unsigned char`: the
    * value modulo 256. */
  function ToUChar(v: int): bv8 {
    (v % 256) as bv8
  }

  /** `AR = ( AR & ( ~4 ) ) | ( 4 * fr )` (cpp:989). */
  function StoreFormulation(ar: bv8, fr: bv8): (r: bv8)
    ensures r & 3 == ar & 3
    ensures (r & KnapsackRelaxation != 0) <==> (fr & 1 != 0)
    ensures (r & Slc != 0) <==> (ar & Slc != 0 || fr & 2 != 0)
    ensures fr & 0x3F == 0 ==> r == ar & !KnapsackRelaxation
  {
    var wide: bv32 := (ar as bv32 & !(4 as bv32)) | (4 * (fr as bv32));
    (wide & 0xFF) as bv8
  }

  /** `AR = ( AR & ( ~slc ) ) | ( slc * sl )` (cpp:1179). */
  function StoreStrongForcing(ar: bv8, sl: bv8): (r: bv8)
    ensures r & 7 == ar & 7
    ensures (r & Slc != 0) <==> (sl & 1 != 0)
  {
    var wide: bv32 := (ar as bv32 & !(Slc as bv32)) | ((Slc as bv32) * (sl as bv32));
    (wide & 0xFF) as bv8
  }

  /** The named bits of MMCFBlock.h:490-517: three distinct flags, and
    * `slc` sharing its bit with `addFixedCosts`. */
  lemma FlagLayout()
    ensures HasVar & HasMutual == 0 && HasVar & KnapsackRelaxation == 0 && HasMutual & KnapsackRelaxation == 0
    ensures Slc == AddFixedCosts
    ensures Slc & (HasVar | HasMutual | KnapsackRelaxation) == 0
  {
  }

  /** What the configuration value selects at cpp:989 on a fresh `AR`: 1 is
    * the knapsack formulation, 2 sets `slc` instead, 3 both, and 64 wraps
    * around to the flow formulation. */
  lemma FormulationValues(ar: bv8)
    requires ar & Slc == 0
    ensures StoreFormulation(ar, ToUChar(0)) & (KnapsackRelaxation | Slc) == 0
    ensures StoreFormulation(ar, ToUChar(1)) & (KnapsackRelaxation | Slc) == KnapsackRelaxation
    ensures StoreFormulation(ar, ToUChar(2)) & (KnapsackRelaxation | Slc) == Slc
    ensures StoreFormulation(ar, ToUChar(3)) & (KnapsackRelaxation | Slc) == KnapsackRelaxation | Slc
    ensures StoreFormulation(ar, ToUChar(64)) & (KnapsackRelaxation | Slc) == 0
  {
  }
}
