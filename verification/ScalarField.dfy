/** The Ristretto scalar field: the residue field with its modulus between 2^252 and 2^253. */
module ScalarField {
  import opened ResidueField

  type ScalarModulus = p: int |
    0x1000000000000000000000000000000000000000000000000000000000000000 < p
    < 0x2000000000000000000000000000000000000000000000000000000000000000
    witness (ModulusSize(); M)

  const P: ScalarModulus := (ModulusSize(); M)
}
