/**
 * Values shared by every controller: optional request fields, the HTTP
 * status an action fails with, and the ObjectId syntax check that guards
 * most route parameters.
 */
module Common {

  datatype Option<+T> = None | Some(value: T)

  /**
   * The status a failed request surfaces with. An `ApiError` carries its own
   * code; a plain `Error`, a runtime `TypeError`, a Mongoose `CastError`, a
   * unique-index violation and an `ApiError` built with a non-numeric status
   * all reach the client as 500.
   */
  datatype Status = BadRequest | Unauthorized | NotFound | Conflict | ServerError {
    function Code(): (c: nat)
      ensures 400 <= c < 600
    {
      match this
      case BadRequest => 400
      case Unauthorized => 401
      case NotFound => 404
      case Conflict => 409
      case ServerError => 500
    }
  }

  /** What a controller hands back: a response payload, or the error it throws. */
  datatype Outcome<+T> = Ok(value: T) | Err(status: Status)

  /** A document identifier, in its 24-character hexadecimal text form. */
  type Id = string

  predicate IsHexDigit(c: char) {
    '0' <= c <= '9' || 'a' <= c <= 'f' || 'A' <= c <= 'F'
  }

  /** Mongoose's `isValidObjectId` on a string: exactly 24 hexadecimal digits. */
  predicate IsValidObjectId(s: string) {
    |s| == 24 && forall i :: 0 <= i < |s| ==> IsHexDigit(s[i])
  }

  function LowerHex(c: char): char {
    if 'A' <= c <= 'F' then (c as int + 32) as char else c
  }

  /**
   * The id a string route parameter denotes once cast to an ObjectId, in
   * the lower-case hexadecimal form every stored id and `toString()` use.
   */
  function CastId(s: string): (r: Id)
    ensures |r| == |s|
    ensures forall i :: 0 <= i < |s| ==> r[i] == LowerHex(s[i])
  {
    seq(|s|, i requires 0 <= i < |s| => LowerHex(s[i]))
  }

  /** JavaScript truthiness of an optional string field: present and not empty. */
  predicate Truthy(field: Option<string>) {
    field.Some? && field.value != ""
  }
}
