/** Row ids: node, batch and row packed into 32 bits. */
module RowIds {
  import opened Words
  import opened Storage

  const LIMIT_32: nat := 0x1_0000_0000

  /** Bitwise or of two numbers. */
  function BitOr(a: nat, b: nat): nat {
    if a == 0 && b == 0 then 0
    else (if a % 2 == 1 || b % 2 == 1 then 1 else 0) + 2 * BitOr(a / 2, b / 2)
  }

  /** `(node << 24) | (batch << 12) | row` on 32 bits. */
  function PackRowId(node: nat, batch: nat, row: nat): nat {
    BitOr(BitOr((node * 0x100_0000) % LIMIT_32, (batch * 0x1000) % LIMIT_32), row % LIMIT_32)
  }

  /** `id >> 24`, `(id >> 12) & 0xFFF`, `id & 0xFFF` */
  function UnpackRowId(id: nat): (nat, nat, nat) {
    (id / 0x100_0000, (id / 0x1000) % 0x1000, id % 0x1000)
  }

  lemma {:induction false} OrZero(a: nat)
    ensures BitOr(a, 0) == a
  {
    if a > 0 { OrZero(a / 2); }
  }

  /** Disjoint bits add up. */
  lemma {:induction false} OrDisjoint(high: nat, low: nat, k: nat)
    requires low < Pow2(k)
    ensures BitOr(high * Pow2(k), low) == high * Pow2(k) + low
  {
    if k == 0 {
      OrZero(high);
    } else {
      var h, p := high * Pow2(k), Pow2(k - 1);
      assert high * (2 * p) == 2 * (high * p);
      OrDisjoint(high, low / 2, k - 1);
    }
  }

  lemma {:induction false} OrBound(a: nat, b: nat, k: nat)
    requires a < Pow2(k) && b < Pow2(k)
    ensures BitOr(a, b) < Pow2(k)
  {
    if k > 0 && (a > 0 || b > 0) { OrBound(a / 2, b / 2, k - 1); }
  }

  lemma Powers()
    ensures Pow2(12) == 0x1000 && Pow2(24) == 0x100_0000 && Pow2(32) == LIMIT_32
  {
    assert Pow2(8) == 256;
    Pow2Add(8, 4);
    Pow2Add(8, 8);
    Pow2Add(16, 8);
    Pow2Add(16, 16);
  }

  lemma PackedSum(node: nat, batch: nat, row: nat)
    requires node < 256 && batch < 4096 && row < 4096
    ensures PackRowId(node, batch, row) == node * 0x100_0000 + batch * 0x1000 + row
  {
    Powers();
    hide BitOr, Pow2;
    OrDisjoint(node, batch * 0x1000, 24);
    OrDisjoint(node * 0x1000 + batch, row, 12);
  }

  lemma PackedBound(node: nat, batch: nat, row: nat)
    ensures PackRowId(node, batch, row) < LIMIT_32
  {
    Powers();
    var a, b, c := (node * 0x100_0000) % LIMIT_32, (batch * 0x1000) % LIMIT_32, row % LIMIT_32;
    hide BitOr, Pow2;
    OrBound(a, b, 32);
    OrBound(BitOr(a, b), c, 32);
  }

  /** Whatever fits 32 bits unpacks into the three fields. */
  lemma UnpackedBound(id: nat)
    requires id < LIMIT_32
    ensures var (node, batch, row) := UnpackRowId(id); node < 256 && batch < 4096 && row < 4096
  {
  }

  lemma SumUnpacks(node: nat, batch: nat, row: nat)
    requires node < 256 && batch < 4096 && row < 4096
    ensures UnpackRowId(node * 0x100_0000 + batch * 0x1000 + row) == (node, batch, row)
  {
  }

  /** Packing loses nothing exactly when every part fits its field. */
  lemma PackExact(node: nat, batch: nat, row: nat)
    requires node < LIMIT_32 && batch < LIMIT_32 && row < LIMIT_32
    ensures UnpackRowId(PackRowId(node, batch, row)) == (node, batch, row) <==> node < 256 && batch < 4096 && row < 4096
  {
    hide *;
    PackedBound(node, batch, row);
    UnpackedBound(PackRowId(node, batch, row));
    if node < 256 && batch < 4096 && row < 4096 {
      PackedSum(node, batch, row);
      SumUnpacks(node, batch, row);
    }
  }
}
