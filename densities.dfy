/** The fixed density table and the scaling of one image dimension by a
    density's factor.

    Every factor of the table is a multiple of one half, so a factor is kept
    as a whole number of halves: mdpi (1) is 2 halves, hdpi (1.5) is 3, and
    so on. The product of an integer dimension and such a factor is exact in
    floating point, which lets Math.round be modelled in integers. */
module Densities {

  /** One entry of the table: a bucket name and its factor in halves. */
  datatype Density = Density(name: string, halves: nat)

  /** The factor of a density as the number the source writes down. */
  function Factor(d: Density): real
  {
    d.halves as real / 2.0
  }

  /** The density table, in insertion order (the order in which
      Object.entries walks a plain object with non-numeric keys). */
  const Table: seq<Density> := [
    Density("mdpi", 2),
    Density("hdpi", 3),
    Density("xhdpi", 4),
    Density("xxhdpi", 6),
    Density("xxxhdpi", 8)
  ]

  /** x rounded by JavaScript's Math.round: the nearest integer, with a tie
      going up (toward +infinity). */
  ghost predicate IsMathRound(r: int, x: real) {
    r as real - 0.5 <= x < r as real + 0.5
  }

  /** Math.round(dim * factor), computed in integers. */
  function Scale(dim: nat, d: Density): (r: nat)
    ensures IsMathRound(r, dim as real * Factor(d))
  {
    var p := dim * d.halves;
    assert dim as real * Factor(d) == p as real / 2.0 by {
      assert (dim as real) * (d.halves as real) == p as real;
    }
    (p + 1) / 2
  }

  /** The table has five entries, in the order and with the factors of the
      source. */
  lemma TableContents()
    ensures |Table| == 5
    ensures Table[0].name == "mdpi" && Factor(Table[0]) == 1.0
    ensures Table[1].name == "hdpi" && Factor(Table[1]) == 1.5
    ensures Table[2].name == "xhdpi" && Factor(Table[2]) == 2.0
    ensures Table[3].name == "xxhdpi" && Factor(Table[3]) == 3.0
    ensures Table[4].name == "xxxhdpi" && Factor(Table[4]) == 4.0
  {
  }

  /** No name occurs twice, and the factors strictly increase along the
      table; every factor is at least 1. */
  lemma TableOrdered(i: nat, j: nat)
    requires i < j < |Table|
    ensures Table[i].name != Table[j].name
    ensures 2 <= Table[i].halves < Table[j].halves
  {
  }

  /** A factor that is a whole number scales exactly. */
  lemma ScaleWholeFactor(dim: nat, d: Density)
    requires d.halves % 2 == 0
    ensures Scale(dim, d) == dim * (d.halves / 2)
  {
  }

  /** A factor of one and a half: an even dimension scales exactly, an odd
      one gives the product plus one half. */
  lemma ScaleHdpi(dim: nat)
    ensures dim % 2 == 0 ==> 2 * Scale(dim, Table[1]) == 3 * dim
    ensures dim % 2 == 1 ==> 2 * Scale(dim, Table[1]) == 3 * dim + 1
  {
  }

  /** The mdpi copy keeps the source's dimensions. */
  lemma ScaleMdpiIdentity(dim: nat)
    ensures Scale(dim, Table[0]) == dim
  {
  }

  /** A larger factor never gives a smaller dimension. */
  lemma ScaleMonotone(dim: nat, d: Density, e: Density)
    requires d.halves <= e.halves
    ensures Scale(dim, d) <= Scale(dim, e)
  {
  }

  /** A non-empty dimension stays non-empty at every density of the table. */
  lemma ScalePositive(dim: nat, i: nat)
    requires 0 < dim && i < |Table|
    ensures 1 <= Scale(dim, Table[i])
  {
  }

  /** Worked values: a 100-pixel side at every density, and an odd side at
      hdpi. */
  lemma ScaleExamples()
    ensures Scale(100, Table[0]) == 100 && Scale(100, Table[1]) == 150
    ensures Scale(100, Table[2]) == 200 && Scale(100, Table[3]) == 300
    ensures Scale(100, Table[4]) == 400
    ensures Scale(101, Table[1]) == 152
  {
  }
}
