/** The bounds on numbers are the bit lengths that the source checks. */
module Widths {
  import opened Basics
  import opened Decimal
  import opened Powers
  import opened CoinSpec
  import opened Coins
  import V = Varints
  import I = Ints

  lemma Doubled(n: nat)
    ensures V.Pow2(n + 1) == 2 * V.Pow2(n)
  {
  }

  lemma PowerOf256()
    ensures V.Pow2(256) == UintBound()
  {
    hide V.Pow2;
    V.Pow2At64();
    I.Pow2Add(64, 64);
    I.Pow2Add(128, 128);
  }

  lemma PowerOf255()
    ensures V.Pow2(255) == IntBound()
  {
    hide V.Pow2;
    PowerOf256();
    Doubled(255);
  }

  lemma PowerOf315()
    ensures V.Pow2(315) == Bound()
  {
    hide V.Pow2;
    PowerOf256();
    V.Pow2At64();
    Doubled(63);
    Doubled(62);
    Doubled(61);
    Doubled(60);
    Doubled(59);
    I.Pow2Add(256, 59);
  }

  /** A decimal fits exactly if it has at most 255 + 60 bits. */
  lemma DecimalWidth(x: int)
    ensures Fits(x) <==> I.BitLength(x) <= 255 + 60
  {
    hide V.Pow2, Bound, I.BitLength;
    PowerOf315();
    I.BitLengthWithin(x, 315);
  }

  /** An amount is within the bound of Int exactly if it has at most 255 bits. */
  lemma IntWidth(x: int)
    ensures Within(x, IntBound()) <==> I.BitLength(x) <= 255
  {
    hide V.Pow2, IntBound, I.BitLength;
    PowerOf255();
    I.BitLengthWithin(x, 255);
  }

  /** A Uint has at most 256 bits. */
  lemma UintWidth(x: nat)
    ensures x < UintBound() <==> I.BitLength(x) <= 256
  {
    hide V.Pow2, UintBound, I.BitLength;
    PowerOf256();
    I.BitLengthWithin(x, 256);
  }
}
