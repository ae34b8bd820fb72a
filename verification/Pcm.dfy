/** Conversion of real samples to 16-bit PCM. */
module Pcm {

  /** A real sample stored as 16 bits: limited to the range, then cut toward zero. */
  function Clamp16(v: real): (p: int)
    ensures -0x8000 <= p <= 0x7FFF
  {
    if v > 32767.0 then 32767 else if v < -32768.0 then -32768
    else if v >= 0.0 then v.Floor else -((-v).Floor)
  }

  /** The value brought into the range of 16 bits. */
  function InRange(v: real): real { if v > 32767.0 then 32767.0 else if v < -32768.0 then -32768.0 else v }

  /** What is stored is the whole part, toward zero, of the value brought into range: for every value one number. */
  lemma StoredExactly(v: real, p: int)
    ensures Clamp16(v) == p
      <==> if InRange(v) >= 0.0 then 0 <= p && p as real <= InRange(v) < (p + 1) as real
           else p <= 0 && (p - 1) as real < InRange(v) <= p as real
  {
  }
}
