# tpm2-pkcs11 utility header, modelled in Dafny

This project models the part of `src/lib/utils.h` of tpm2-pkcs11 (a PKCS#11
token provider backed by a TPM 2.0) that has bodies or documented contracts:

- `str_padded_copy`, which fills a fixed-width PKCS#11 text field
  (`CK_INFO`, `CK_SLOT_INFO`, `CK_TOKEN_INFO` labels and the like: blank
  padded, never NUL-terminated, sections 3.1-3.2 of the PKCS#11 v2.40 base
  specification) from a C string. It is a method over `array<byte>` with a
  `memset` loop and a `memcpy` loop, specified by the function `PaddedCopy`.
  `strnlen` is the function `StrNLen`.
- the `UTILS_GENERIC_ATTR_TYPE_CONVERT(T)` converter `generic_T`, which
  accepts a `CK_ATTRIBUTE` only when its declared length is `sizeof(T)` and
  only then stores the value through its out-pointer. The out-pointer is a
  `Ref<T>` cell; `T` is given by its size and a decoding function. The
  `CK_ULONG` instance reads 8 little-endian bytes (an LP64 x86-64 host), and
  the decoding is proved to be the inverse of the in-memory layout.
- `util_get_attribute_by_type`, as a pure search that returns the position of
  the found attribute (`Some(i)` for `&haystack[i]`, `None` for NULL).
- `buf_dup`, as a method that allocates a fresh array and copies into it, or
  returns null when the allocation fails.
- the `attr_handler` and `mech_handler` table records, with
  `ATTR_HANDLER_IGNORE` as the absent handler (`None`), the constant
  `SALT_HEX_STR_SIZE`, and the one-line delegation
  `utils_new_random_object_auth` (utils.h:86-88), declared as the function
  `NewRandomObjectAuth`, which applies the setup routine it is given to a
  NULL PIN; a delegation has no property of its own to prove.

Files: `wrappers.dfy` (Option), `pkcs11.dfy` (bytes, `CK_ULONG`,
return codes, `CK_ATTRIBUTE`, `twist`), `utils.dfy` (the
header's helpers and the proofs about them). `pkcs11.h` and `twist.h` are not
part of this model; the types taken from them are those of the PKCS#11 v2.40
standard for an LP64 host, and `twist` is a byte sequence or NULL.

Notes on the source:

- The comment on `SALT_HEX_STR_SIZE` (utils.h:17) says 64 hex characters
  give "32 bits" of entropy; 64 hex characters encode 32 bytes, i.e. 256 bits.
  The constant itself (64) is what the model uses.
- `util_get_attribute_by_type` has no body in the header, and its comment
  does not say which match is returned when a type occurs more than once.
  The model scans from the front and returns the first match; the contract
  states the comment's promise and, in addition, that the answer is the first.
- `buf_dup` likewise has no body; the model implements the documented result.
- `utils_new_random_object_auth` passes its out-parameters `newauthbin`,
  `newauthhex` into the parameters that `utils_setup_new_object_auth` names
  `newauthhex`, `newsalthex`; the model only keeps the delegation with a NULL
  PIN and calls the two outputs `newAuth` and `newSaltHex`.

## Model

| member | source | states |
|---|---|---|
| Utils.StrPaddedCopy | src/lib/utils.h:27-30 | `dst[0..dst_len)` becomes the blank-padded copy of `src`; no byte of `dst` at or after `dst_len` is written and `src` is unchanged |
| Utils.StrNLen | src/lib/utils.h:29 | strnlen: the result is at most `dst_len`, no byte before it is NUL, and when it is below `dst_len` the byte at that index is the NUL |
| Utils.PaddedCopyLayout | src/lib/utils.h:28-29 | the field is exactly `dst_len` bytes; `dst[0..k)` equals `src[0..k)` for `k = strnlen(src, dst_len)` and every byte from `k` on is a blank |
| Utils.PaddedCopyHasNoNul | src/lib/utils.h:28-29 | the field contains no NUL byte, so it is never NUL-terminated |
| Utils.PaddedCopyTruncates | src/lib/utils.h:29 | a source with no NUL among its first `dst_len` bytes is truncated to exactly `src[0..dst_len)` |
| Utils.PaddedCopyPads | src/lib/utils.h:28-29 | a NUL-terminated text no longer than the field is copied whole and followed by `dst_len - len` blanks |
| Utils.PaddedCopyIdempotent | src/lib/utils.h:27-30 | copying a produced field again at the same width gives the same field |
| Utils.PaddedTextRoundTrip | src/lib/utils.h:27-30 | a text that fits and does not end in a blank is recovered from the field by removing the trailing blanks |
| Utils.GenericAttrTypeConvert | src/lib/utils.h:121-131 | returns `CKR_ATTRIBUTE_VALUE_INVALID` and leaves `*x` untouched exactly when `ulValueLen != sizeof(T)`; otherwise returns `CKR_OK` and `*x` is the value read from `pValue` |
| Utils.GenericCkUlong | src/lib/utils.h:121-131 | the `CK_ULONG` instance: on `CKR_OK` the stored value's in-memory bytes are exactly the attribute's 8 value bytes; on failure `*x` is unchanged |
| Utils.LeValueOfBytes | src/lib/utils.h:128 | reading a number back from its little-endian bytes gives the number |
| Utils.LeBytesOfValue | src/lib/utils.h:128 | writing out the number that little-endian bytes stand for gives the bytes back |
| Utils.DecodeEncodeCkUlong | src/lib/utils.h:128 | reading the stored bytes of a `CK_ULONG` as in `*(T *)attr->pValue` gives the value back |
| Utils.EncodeDecodeCkUlong | src/lib/utils.h:128 | every 8 bytes are the stored form of the `CK_ULONG` they are read as |
| Utils.GetAttributeByType | src/lib/utils.h:144-155 | the result is NULL exactly when no entry among the first `count` has type `needle`; otherwise it is such an entry (the first one) |
| Utils.GetAttributeByTypeFindsPresent | src/lib/utils.h:144-155 | the set form of the lookup's NULL case: the search finds an attribute exactly when `needle` is in the set of types of the first `count` entries |
| Utils.GetAttributeByTypeStable | src/lib/utils.h:144-155 | searching more entries returns the same attribute once one was found among fewer |
| Utils.BufDup | src/lib/utils.h:170-179 | NULL exactly on out-of-memory; otherwise a fresh buffer whose bytes equal `buf[0..len)`; `buf` is not modified |

## Left out

- `aes256_gcm_encrypt`, `aes256_gcm_decrypt`, `utils_hash_pass` (utils.h:32-36): foreign cryptographic primitives with no body in the header.
- `utils_get_rand_hex_str`, `utils_setup_new_object_auth` (utils.h:82-84): they draw from the random number generator; the setup routine is a parameter of `NewRandomObjectAuth`.
- `utils_ctx_wrap_objauth`, `utils_ctx_unwrap_objauth` (utils.h:92-93): they go through the opaque token and TPM context.
- `utils_handle_attrs`, `utils_handle_mechs`, `utils_attr_deep_copy`, `utils_mech_deep_copy`, `utils_mech_free`, `utils_attr_free` (utils.h:103-119): only their signatures are in the header; only the handler-record types are modelled. A handler is named by a type parameter; its side effects through `userdat` are not modelled.
- `ec_params_to_nid` (utils.h:142): a mapping into OpenSSL curve identifiers, with no body in the header.
- `util_get_attribute_full` (utils.h:157-168): "shallow-matching" is not defined precisely enough in the header to state.
- `utils_get_halg_size`, `utils_mech_is_raw_sign`, `utils_mech_is_rsa_pkcs`, `utils_mech_is_ecdsa` (utils.h:38-75): their mechanism tables are not in the header.
- `xstr`, `str`, `ARRAY_LEN`, `ARRAY_BYTES`, `UNUSED` (utils.h:19-25): compile-time macros.
- GenericAttrTypeConvert: the read `*(T *)attr->pValue` is a `decode` function of the first `sizeof(T)` bytes; alignment and host byte order are not modelled except in the `CK_ULONG` instance, which assumes a little-endian LP64 host. An attribute whose `ulValueLen` equals `sizeof(T)` but whose `pValue` is NULL or shorter is excluded by the `requires`: the source dereferences it unchecked.
- StrPaddedCopy: overlapping `dst` and `src` (undefined for `memcpy`) is excluded by requiring two distinct arrays.
- BufDup: allocation failure is an explicit `outOfMemory` parameter rather than the state of the heap.
- GetAttributeByType: the returned pointer is the index of the entry in the sequence; pointer identity is not modelled.
