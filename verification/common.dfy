/** Small shared vocabulary: optional values, C integer widths and kernel error numbers. */
module Common {

  /** The conventional Some/None datatype; `None` stands for a NULL pointer. */
  datatype Option<T> = None | Some(value: T)

  /** Either a value or a kernel error number. */
  datatype Result<T> = Ok(value: T) | Err(errno: Errno)

  /** The error numbers the modelled code returns (as negative values in C). */
  datatype Errno = EINVAL | EPERM

  /** The C `s32` type. */
  type Int32 = x: int | -0x8000_0000 <= x < 0x8000_0000

  /** The C `u32` / 32-bit `unsigned long` type of the ARM target. */
  type Uint32 = x: int | 0 <= x < 0x1_0000_0000

  /** One byte of a user buffer. */
  type Byte = x: int | 0 <= x < 0x100

  /** The two's-complement reinterpretation `(s32)u` of a 32-bit unsigned value. */
  function ToInt32(u: Uint32): (v: Int32)
    ensures v % 0x1_0000_0000 == u
    ensures 0 <= v ==> v == u
  {
    if u < 0x8000_0000 then u else u - 0x1_0000_0000
  }

  /** Storing the value a map already holds leaves the map as it was. */
  lemma UpdateSameValue<K, V>(m: map<K, V>, k: K)
    requires k in m
    ensures m[k := m[k]] == m
  {
  }
}
