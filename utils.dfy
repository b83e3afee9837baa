/**
 * The helpers of src/lib/utils.h that carry a body or a documented contract:
 * the blank-padded text copy, the attribute-to-scalar converter, the search
 * of an attribute template by type, buffer duplication, the handler-table
 * records and the random object-authorization shortcut.
 */
module Utils {
  import opened Wrappers
  import opened Pkcs11

  /** Number of hex characters of an object-authorization salt (32 bytes). */
  const SALT_HEX_STR_SIZE: nat := 64

  // ---------------------------------------------------------------------
  // str_padded_copy
  // ---------------------------------------------------------------------

  /**
   * The bytes that strnlen(s, maxLen) reads exist: either `maxLen` of them,
   * or a terminating NUL comes first.
   */
  predicate CStrReadable(s: seq<byte>, maxLen: nat)
  {
    maxLen <= |s| || NUL in s
  }

  /** strnlen: the length of the C string `s`, stopping after at most `maxLen` bytes. */
  function StrNLen(s: seq<byte>, maxLen: nat): (r: nat)
    requires CStrReadable(s, maxLen)
    ensures r <= maxLen && r <= |s|
    ensures forall i :: 0 <= i < r ==> s[i] != NUL
    ensures r < maxLen ==> r < |s| && s[r] == NUL
  {
    if maxLen == 0 || s[0] == NUL then 0 else 1 + StrNLen(s[1..], maxLen - 1)
  }

  /** `n` blanks. */
  function Spaces(n: nat): (r: seq<byte>)
    ensures |r| == n
    ensures forall i :: 0 <= i < n ==> r[i] == SPACE
  {
    seq(n, _ => SPACE)
  }

  /** The `dstLen` bytes that str_padded_copy leaves in `dst` for the C string `src`. */
  function PaddedCopy(src: seq<byte>, dstLen: nat): seq<byte>
    requires CStrReadable(src, dstLen)
  {
    var k := StrNLen(src, dstLen);
    src[..k] + Spaces(dstLen - k)
  }

  /**
   * str_padded_copy: blank-fill the first `dstLen` bytes of `dst` (memset),
   * then copy the text of `src` up to its NUL or `dstLen` bytes (memcpy).
   * Nothing beyond `dst[dstLen - 1]` is written and `src` is not changed.
   */
  method StrPaddedCopy(dst: array<byte>, src: array<byte>, dstLen: nat)
    requires dst != src
    requires dstLen <= dst.Length
    requires CStrReadable(src[..], dstLen)
    modifies dst
    ensures dst[..dstLen] == PaddedCopy(old(src[..]), dstLen)
    ensures dst[dstLen..] == old(dst[dstLen..])
    ensures src[..] == old(src[..])
  {
    var i := 0;
    while i < dstLen
      invariant 0 <= i <= dstLen
      invariant forall m :: 0 <= m < i ==> dst[m] == SPACE
      invariant dst[dstLen..] == old(dst[dstLen..])
    {
      dst[i] := SPACE;
      i := i + 1;
    }
    var n := StrNLen(src[..], dstLen);
    var j := 0;
    while j < n
      invariant 0 <= j <= n
      invariant forall m :: 0 <= m < j ==> dst[m] == src[m]
      invariant forall m :: j <= m < dstLen ==> dst[m] == SPACE
      invariant dst[dstLen..] == old(dst[dstLen..])
    {
      dst[j] := src[j];
      j := j + 1;
    }
    assert dst[..dstLen] == PaddedCopy(src[..], dstLen) by {
      forall m | 0 <= m < dstLen
        ensures dst[..dstLen][m] == PaddedCopy(src[..], dstLen)[m]
      {
        if m < n {
          assert PaddedCopy(src[..], dstLen)[m] == src[m];
        } else {
          assert PaddedCopy(src[..], dstLen)[m] == Spaces(dstLen - n)[m - n];
        }
      }
    }
  }

  /** The field holds the text of `src` up to strnlen and blanks after it. */
  lemma PaddedCopyLayout(src: seq<byte>, dstLen: nat)
    requires CStrReadable(src, dstLen)
    ensures |PaddedCopy(src, dstLen)| == dstLen
    ensures forall i :: 0 <= i < StrNLen(src, dstLen) ==> PaddedCopy(src, dstLen)[i] == src[i]
    ensures forall i :: StrNLen(src, dstLen) <= i < dstLen ==> PaddedCopy(src, dstLen)[i] == SPACE
  {
  }

  /** The field never contains a NUL, so it is never NUL-terminated. */
  lemma PaddedCopyHasNoNul(src: seq<byte>, dstLen: nat)
    requires CStrReadable(src, dstLen)
    ensures NUL !in PaddedCopy(src, dstLen)
  {
  }

  /** A source with no NUL among its first `dstLen` bytes is truncated to exactly those bytes. */
  lemma PaddedCopyTruncates(src: seq<byte>, dstLen: nat)
    requires dstLen <= |src|
    requires NUL !in src[..dstLen]
    ensures PaddedCopy(src, dstLen) == src[..dstLen]
  {
  }

  /** A NUL-terminated text of at most `dstLen` bytes is copied whole and followed by blanks. */
  lemma PaddedCopyPads(text: seq<byte>, dstLen: nat)
    requires |text| <= dstLen
    requires NUL !in text
    ensures CStrReadable(text + [NUL], dstLen)
    ensures PaddedCopy(text + [NUL], dstLen) == text + Spaces(dstLen - |text|)
  {
  }

  /** Copying a field that str_padded_copy produced, at the same width, gives it back unchanged. */
  lemma PaddedCopyIdempotent(src: seq<byte>, dstLen: nat)
    requires CStrReadable(src, dstLen)
    ensures CStrReadable(PaddedCopy(src, dstLen), dstLen)
    ensures PaddedCopy(PaddedCopy(src, dstLen), dstLen) == PaddedCopy(src, dstLen)
  {
  }

  /** A reader's view of a blank-padded field: the field with its trailing blanks removed. */
  function TrimTrailingSpaces(s: seq<byte>): (r: seq<byte>)
    ensures |r| <= |s| && r == s[..|r|]
    ensures forall i :: |r| <= i < |s| ==> s[i] == SPACE
    ensures r == [] || r[|r| - 1] != SPACE
  {
    if s == [] || s[|s| - 1] != SPACE then s else TrimTrailingSpaces(s[..|s| - 1])
  }

  /** Trailing blanks added to a text that does not end in a blank are exactly what trimming removes. */
  lemma {:induction false} TrimPadding(text: seq<byte>, n: nat)
    requires text == [] || text[|text| - 1] != SPACE
    ensures TrimTrailingSpaces(text + Spaces(n)) == text
  {
    if n > 0 {
      assert (text + Spaces(n))[..|text| + n - 1] == text + Spaces(n - 1);
      TrimPadding(text, n - 1);
    } else {
      assert text + Spaces(0) == text;
    }
  }

  /**
   * The padding loses nothing: a NUL-terminated text that fits the field and
   * does not end in a blank is recovered from the field by trimming its blanks.
   */
  lemma PaddedTextRoundTrip(text: seq<byte>, dstLen: nat)
    requires |text| <= dstLen
    requires NUL !in text
    requires text == [] || text[|text| - 1] != SPACE
    ensures CStrReadable(text + [NUL], dstLen)
    ensures TrimTrailingSpaces(PaddedCopy(text + [NUL], dstLen)) == text
  {
    PaddedCopyPads(text, dstLen);
    TrimPadding(text, dstLen - |text|);
  }

  // ---------------------------------------------------------------------
  // UTILS_GENERIC_ATTR_TYPE_CONVERT(T)
  // ---------------------------------------------------------------------

  /** The out-pointer `T *x` of a converter: one cell the converter may overwrite. */
  class Ref<T> {
    var value: T

    constructor (v: T)
      ensures value == v
    {
      value := v;
    }
  }

  /**
   * generic_T: accept the attribute only when its declared length is
   * sizeof(T) (`size`), and only then store its value, read as a T
   * (`decode` of its first `size` bytes), through `x`.
   */
  method GenericAttrTypeConvert<T>(attr: Attribute, x: Ref<T>, size: nat, decode: seq<byte> -> T) returns (rv: Rv)
    requires attr.ulValueLen as int == size ==> attr.ValueReadable()
    modifies x
    ensures rv == CKR_OK || rv == CKR_ATTRIBUTE_VALUE_INVALID
    ensures rv == CKR_OK <==> attr.ulValueLen as int == size
    ensures rv == CKR_OK ==> x.value == decode(attr.pValue.value[..size])
    ensures rv != CKR_OK ==> x.value == old(x.value)
  {
    if attr.ulValueLen as int != size {
      return CKR_ATTRIBUTE_VALUE_INVALID;
    }
    x.value := decode(attr.pValue.value[..size]);
    return CKR_OK;
  }

  /** 256 to the power `n`. */
  function Pow256(n: nat): (p: nat)
    ensures p >= 1
  {
    if n == 0 then 1 else 256 * Pow256(n - 1)
  }

  /** The unsigned number whose little-endian bytes are `b`. */
  function LeValue(b: seq<byte>): (v: nat)
    ensures v < Pow256(|b|)
  {
    if b == [] then 0 else b[0] as nat + 256 * LeValue(b[1..])
  }

  /** The `n` little-endian bytes of `v`. */
  function LeBytes(v: nat, n: nat): (b: seq<byte>)
    requires v < Pow256(n)
    ensures |b| == n
  {
    if n == 0 then [] else [(v % 256) as byte] + LeBytes(v / 256, n - 1)
  }

  /** Reading back the bytes of a number gives the number. */
  lemma {:induction false} LeValueOfBytes(v: nat, n: nat)
    requires v < Pow256(n)
    ensures LeValue(LeBytes(v, n)) == v
  {
    if n > 0 {
      var b := LeBytes(v, n);
      assert b[1..] == LeBytes(v / 256, n - 1);
      LeValueOfBytes(v / 256, n - 1);
    }
  }

  /** Writing out the number that bytes stand for gives the bytes back. */
  lemma {:induction false} LeBytesOfValue(b: seq<byte>)
    ensures LeBytes(LeValue(b), |b|) == b
  {
    if b != [] {
      var v := LeValue(b);
      assert v % 256 == b[0] as nat;
      assert v / 256 == LeValue(b[1..]);
      LeBytesOfValue(b[1..]);
    }
  }

  /** CK_ULONG values are exactly those that fit in sizeof(CK_ULONG) bytes. */
  lemma CkUlongRange()
    ensures Pow256(CK_ULONG_SIZE) == 0x1_0000_0000_0000_0000
  {
  }

  /** `*(CK_ULONG *)pValue` on a little-endian LP64 host. */
  function DecodeCkUlong(b: seq<byte>): CkUlong
  {
    if |b| == CK_ULONG_SIZE then
      CkUlongRange();
      LeValue(b) as CkUlong
    else
      0
  }

  /** The in-memory bytes of a CK_ULONG on a little-endian LP64 host. */
  function EncodeCkUlong(x: CkUlong): (b: seq<byte>)
    ensures |b| == CK_ULONG_SIZE
  {
    CkUlongRange();
    LeBytes(x as nat, CK_ULONG_SIZE)
  }

  /** Decoding the stored bytes of a CK_ULONG gives the value back. */
  lemma DecodeEncodeCkUlong(x: CkUlong)
    ensures DecodeCkUlong(EncodeCkUlong(x)) == x
  {
    CkUlongRange();
    LeValueOfBytes(x as nat, CK_ULONG_SIZE);
  }

  /** Every sizeof(CK_ULONG) bytes are the stored form of the value they decode to. */
  lemma EncodeDecodeCkUlong(b: seq<byte>)
    requires |b| == CK_ULONG_SIZE
    ensures EncodeCkUlong(DecodeCkUlong(b)) == b
  {
    CkUlongRange();
    LeBytesOfValue(b);
  }

  /** generic_CK_ULONG: the converter instantiated with T = CK_ULONG. */
  method GenericCkUlong(attr: Attribute, x: Ref<CkUlong>) returns (rv: Rv)
    requires attr.ulValueLen as int == CK_ULONG_SIZE ==> attr.ValueReadable()
    modifies x
    ensures rv == CKR_OK <==> attr.ulValueLen as int == CK_ULONG_SIZE
    ensures rv != CKR_OK ==> rv == CKR_ATTRIBUTE_VALUE_INVALID && x.value == old(x.value)
    ensures rv == CKR_OK ==> EncodeCkUlong(x.value) == attr.pValue.value[..CK_ULONG_SIZE]
  {
    rv := GenericAttrTypeConvert(attr, x, CK_ULONG_SIZE, DecodeCkUlong);
    if rv == CKR_OK {
      EncodeDecodeCkUlong(attr.pValue.value[..CK_ULONG_SIZE]);
    }
  }

  // ---------------------------------------------------------------------
  // util_get_attribute_by_type
  // ---------------------------------------------------------------------

  /**
   * util_get_attribute_by_type: the position of an attribute of type
   * `needle` among the first `count` entries of `haystack`, or None (NULL)
   * when there is none. The model answers with the first such entry.
   */
  function GetAttributeByType(needle: CkUlong, haystack: seq<Attribute>, count: nat): (r: Option<nat>)
    requires count <= |haystack|
    ensures r.Some? ==> r.value < count && haystack[r.value].attrType == needle
    ensures r.None? <==> forall i :: 0 <= i < count ==> haystack[i].attrType != needle
    ensures r.Some? ==> forall i :: 0 <= i < r.value ==> haystack[i].attrType != needle
  {
    if count == 0 then None
    else if haystack[0].attrType == needle then Some(0)
    else match GetAttributeByType(needle, haystack[1..], count - 1)
      case None => None
      case Some(j) => Some(j + 1)
  }

  /** The attribute types present among the first `count` entries. */
  function TypesOf(haystack: seq<Attribute>, count: nat): (types: set<CkUlong>)
    requires count <= |haystack|
  {
    set i | 0 <= i < count :: haystack[i].attrType
  }

  /**
   * The set form of the second postcondition of GetAttributeByType: the
   * search finds something exactly when the type is present.
   */
  lemma GetAttributeByTypeFindsPresent(needle: CkUlong, haystack: seq<Attribute>, count: nat)
    requires count <= |haystack|
    ensures GetAttributeByType(needle, haystack, count).Some? <==> needle in TypesOf(haystack, count)
  {
  }

  /** Searching more entries does not change an answer already found among fewer. */
  lemma GetAttributeByTypeStable(needle: CkUlong, haystack: seq<Attribute>, count: nat, more: nat)
    requires count <= more <= |haystack|
    requires GetAttributeByType(needle, haystack, count).Some?
    ensures GetAttributeByType(needle, haystack, more) == GetAttributeByType(needle, haystack, count)
  {
  }

  // ---------------------------------------------------------------------
  // buf_dup
  // ---------------------------------------------------------------------

  /**
   * buf_dup: a new buffer holding the first `len` bytes of `buf`, or null
   * when the allocation fails (`outOfMemory`).
   */
  method BufDup(buf: array<byte>, len: nat, outOfMemory: bool) returns (r: array?<byte>)
    requires len <= buf.Length
    ensures r == null <==> outOfMemory
    ensures r != null ==> fresh(r) && r[..] == buf[..len]
  {
    if outOfMemory {
      return null;
    }
    var copy := new byte[len];
    var i := 0;
    while i < len
      invariant 0 <= i <= len
      invariant copy[..i] == buf[..i]
    {
      copy[i] := buf[i];
      i := i + 1;
    }
    return copy;
  }

  // ---------------------------------------------------------------------
  // Handler tables
  // ---------------------------------------------------------------------

  /**
   * attr_handler: an attribute type and the handler for it, `H` naming the
   * handler function. A None handler is ATTR_HANDLER_IGNORE.
   */
  datatype AttrHandler<H> = AttrHandler(value: CkUlong, handler: Option<H>)

  /** mech_handler: a mechanism code and the handler for it (None: no handler). */
  datatype MechHandler<H> = MechHandler(mechanism: CkUlong, handler: Option<H>)

  /** ATTR_HANDLER_IGNORE. */
  function AttrHandlerIgnore<H>(): Option<H>
  {
    None
  }

  // ---------------------------------------------------------------------
  // utils_new_random_object_auth
  // ---------------------------------------------------------------------

  /** What utils_setup_new_object_auth returns: a status and its two out-parameters. */
  datatype ObjectAuth = ObjectAuth(rv: Rv, newAuth: Twist, newSaltHex: Twist)

  /**
   * utils_new_random_object_auth: utils_setup_new_object_auth called with a
   * NULL PIN; `setupNewObjectAuth` stands for that routine.
   */
  function NewRandomObjectAuth(setupNewObjectAuth: Twist -> ObjectAuth): ObjectAuth
  {
    setupNewObjectAuth(None)
  }
}
