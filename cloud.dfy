/**
 * src/utils/cloudinary.js: the guards in front of the storage service and
 * the derivation of the public id handed to `destroy`.
 */
module Cloud {
  import opened Common
  import opened External

  /** `s.split(sep).pop()`: the text after the last `sep`, or all of `s`. */
  function LastSegment(s: string, sep: char): (r: string)
    ensures |r| <= |s| && r == s[|s| - |r|..]
    ensures sep !in r
    ensures |r| < |s| ==> s[|s| - |r| - 1] == sep
  {
    if |s| == 0 then ""
    else if s[|s| - 1] == sep then ""
    else
      var init := LastSegment(s[..|s| - 1], sep);
      assert s[..|s| - 1][|s| - 1 - |init|..] == s[|s| - 1 - |init|..|s| - 1];
      init + [s[|s| - 1]]
  }

  /** `s.split(sep)[0]`: the text before the first `sep`, or all of `s`. */
  function FirstSegment(s: string, sep: char): (r: string)
    ensures |r| <= |s| && r == s[..|r|]
    ensures sep !in r
    ensures |r| < |s| ==> s[|r|] == sep
  {
    if |s| == 0 then ""
    else if s[0] == sep then ""
    else [s[0]] + FirstSegment(s[1..], sep)
  }

  /** The public id of a stored file: its last path segment, cut at the first dot. */
  function PublicId(reference: string): (r: string)
    ensures |r| <= |reference|
    ensures '.' !in r
  {
    FirstSegment(LastSegment(reference, '/'), '.')
  }

  lemma PublicIdIsPlain(reference: string)
    ensures '/' !in PublicId(reference) && '.' !in PublicId(reference)
  {
    var last := LastSegment(reference, '/');
    var id := FirstSegment(last, '.');
    assert forall c :: c in id ==> c in last;
  }

  lemma PublicIdOfPlain(reference: string)
    requires '/' !in reference && '.' !in reference
    ensures PublicId(reference) == reference
  {
  }

  /**
   * `uploadOnCloud`: an empty or missing path yields null whatever the
   * service would answer; otherwise the service's answer (null on failure).
   */
  function UploadOnCloud(localPath: Option<string>, answer: Option<Uploaded>): (r: Option<Uploaded>)
    ensures !Truthy(localPath) ==> r.None?
    ensures Truthy(localPath) ==> r == answer
  {
    if !Truthy(localPath) then None else answer
  }

  /** What `destroy` was asked to remove, and what it answered. */
  datatype Destroyed = Destroyed(publicId: string, answer: DestroyAnswer)

  /**
   * `deleteOnCloud`: an empty or missing reference yields null without a
   * call; otherwise the public id is destroyed, and any answer other than
   * "ok" or "not found" fails the request with 500.
   */
  function DeleteOnCloud(reference: Option<string>, answer: DestroyAnswer): (r: Outcome<Option<Destroyed>>)
    ensures !Truthy(reference) ==> r == Ok(None)
    ensures Truthy(reference) && answer != DestroyFailed ==>
      r == Ok(Some(Destroyed(PublicId(reference.value), answer)))
    ensures Truthy(reference) && answer == DestroyFailed ==> r == Err(ServerError)
  {
    if !Truthy(reference) then Ok(None)
    else if answer == DestroyFailed then Err(ServerError)
    else Ok(Some(Destroyed(PublicId(reference.value), answer)))
  }
}
