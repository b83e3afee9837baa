/**
 * The PKCS#11 v2.40 types that src/lib/utils.h works on, for an LP64 host
 * (CK_ULONG is 64 bits wide), and the `twist` binary buffer.
 */
module Pkcs11 {
  import opened Wrappers

  /** An unsigned 8-bit byte (CK_BYTE, CK_UTF8CHAR). */
  newtype byte = x: int | 0 <= x < 0x100

  /** CK_ULONG on an LP64 host: unsigned, 64 bits. */
  newtype CkUlong = x: int | 0 <= x < 0x1_0000_0000_0000_0000

  /** sizeof(CK_ULONG) on an LP64 host. */
  const CK_ULONG_SIZE: nat := 8


  /** CK_RV: a return code. */
  type Rv = CkUlong

  const CKR_OK: Rv := 0x00
  const CKR_ATTRIBUTE_VALUE_INVALID: Rv := 0x13

  /** The terminating NUL of a C string and the blank that pads PKCS#11 text fields. */
  const NUL: byte := 0x00
  const SPACE: byte := 0x20

  /**
   * CK_ATTRIBUTE: a type code, a value pointer (None when NULL) and the
   * length the caller declares for that value.
   */
  datatype Attribute = Attribute(attrType: CkUlong, pValue: Option<seq<byte>>, ulValueLen: CkUlong)
  {
    /** The value pointer is not NULL and at least `ulValueLen` bytes may be read from it. */
    predicate ValueReadable()
    {
      pValue.Some? && ulValueLen as int <= |pValue.value|
    }
  }


  /** A `twist` binary buffer; None is the NULL twist. */
  type Twist = Option<seq<byte>>
}
