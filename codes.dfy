/**
 * Return codes shared by the three core files. libgit2 functions return 0 on
 * success and a negative code on failure; the values below are libgit2's own.
 * The curl codes are those of libcurl's CURLcode enumeration.
 */
module Codes {

  /** A libgit2 return code: 0 or a negative error. */
  type Code = c: int | c <= 0

  /** A libgit2 error code proper (never success). */
  type ErrorCode = c: int | c < 0 witness -1

  const OK: Code := 0
  const ERROR: Code := -1
  const ENOTFOUND: Code := -3
  const EINVALID: Code := -21
  const ITEROVER: Code := -31

  const CURLE_OK: int := 0
  const CURLE_HTTP_RETURNED_ERROR: int := 22
  const CURLE_WRITE_ERROR: int := 23

  /** HTTP status "404 Not Found" (section 15.5.5 of RFC 9110). */
  const HTTP_NOT_FOUND: int := 404
}
