/** The numbers of the program's own key. */
module StoredKey {
  import opened NumberTheory
  import opened Signer

  /** nbuf, pbuf, qbuf, p14buf, q14buf and qpowpbuf, read from their least significant byte. */
  const STORED_KEY := Key(
    0x1cc2c1433a79a5d734f9f5f1ff1bc43f3f87d378142693ce26fec1b5e9542e5b,
    0x4b697d56ea14013042b11939bbaa1ed3bab09496dbf208785739b07947b70f797,
    0x878e894d2cba39ed8191efb30a0df25b4dc3e5e585a80d8aedbcd73b74167cea5f19dafe59ba36ffb70a33dd94571147d8a34f15a361ac5e17e49722da3124ad,
    0x730b050ce9e6975cd3e7d7c7fc6f10fcfe1f4de0509a4f389bfb06d7a550b97,
    0x12da5f55ba85004c10ac464e6eea87b4eeac2525b6fc821e15ce6c1e51edc3de6,
    0xf2bf5471698cd3847dfe4004f7511c9d9cd8be32c2fa0ae949bdd3daf9682a3)

  /** The six tables fit together: primality of p and q is the only thing left to assume. */
  lemma StoredKeyIsGood()
    requires Prime(STORED_KEY.p) && Prime(STORED_KEY.q)
    ensures GoodKey(STORED_KEY) && WideKey(STORED_KEY)
  {
    var k := STORED_KEY;
    CongIntro(k.q * k.qInverse, 1, k.p, (k.q * k.qInverse - 1) / k.p);
  }

  /** The modulus fits in the 64 bytes of a signature. */
  lemma StoredModulusBytes()
    ensures STORED_KEY.n <= Pow(256, 64)
  {
    assert Pow(256, 4) == 0x1_0000_0000;
    PowAdd(256, 4, 4);
    PowAdd(256, 8, 8);
    PowAdd(256, 16, 16);
    PowAdd(256, 32, 32);
  }
}
