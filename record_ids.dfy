/** `sfdc.util.isValidId` and `sfdc.util.getIdFromLocation`: the unanchored
    pattern `[a-zA-Z0-9]{15}|[a-zA-Z0-9]{18}` for Salesforce record ids,
    tested against a string or executed on a location's path. */
module RecordIds {
  import opened Wrappers

  const INVALID_ID := "Invalid Salesforce Record Id"
  const NO_ID_IN_LOCATION := "Id could not be extracted from window.location"

  /** The character class `[a-zA-Z0-9]`. */
  predicate IsAlnum(c: char)
  {
    ('a' <= c <= 'z') || ('A' <= c <= 'Z') || ('0' <= c <= '9')
  }

  /** `[a-zA-Z0-9]{n}` matches at position `i`. */
  predicate RunAt(s: string, i: nat, n: nat)
  {
    i + n <= |s| && forall j | i <= j < i + n :: IsAlnum(s[j])
  }

  /** The alternation matches at position `i`. */
  predicate PatternAt(s: string, i: nat)
  {
    RunAt(s, i, 15) || RunAt(s, i, 18)
  }

  /** The pattern matches somewhere in `s`. */
  ghost predicate ContainsMatch(s: string)
  {
    exists i: nat :: PatternAt(s, i)
  }

  /** The leftmost position at or after `from` where a run of fifteen starts. */
  function FindRun(s: string, from: nat): (r: Option<nat>)
    requires from <= |s|
    ensures r.Some? ==>
      && from <= r.value && RunAt(s, r.value, 15)
      && (forall j: nat :: from <= j < r.value ==> !RunAt(s, j, 15))
    ensures r.None? ==> forall j: nat :: from <= j ==> !RunAt(s, j, 15)
    decreases |s| - from
  {
    if from + 15 > |s| then None
    else if RunAt(s, from, 15) then Some(from)
    else FindRun(s, from + 1)
  }

  /** A run of eighteen begins with a run of fifteen, so the second
      alternative never matches where the first does not. */
  lemma PatternIsRun(s: string, i: nat)
    ensures PatternAt(s, i) <==> RunAt(s, i, 15)
  {
  }

  /** `idMatch.exec(pathname)` on a fresh pattern: the text of the leftmost
      match, or `None` (`null`) when there is none. At each position the
      first alternative is tried first, so the match is fifteen characters
      even inside an eighteen-character id. */
  function Exec(s: string): (m: Option<string>)
    ensures m.Some? ==> |m.value| == 15 && forall k :: 0 <= k < 15 ==> IsAlnum(m.value[k])
  {
    match FindRun(s, 0)
    case None => None
    case Some(i) => Some(s[i..i + 15])
  }

  /** `exec` finds a match exactly when the pattern matches somewhere, and
      the match is the text at the leftmost position where it matches. */
  lemma ExecLeftmost(s: string)
    ensures Exec(s).Some? <==> ContainsMatch(s)
    ensures Exec(s).Some? ==>
      exists i: nat :: (PatternAt(s, i) && Exec(s).value == s[i..i + 15]
        && forall j: nat :: j < i ==> !PatternAt(s, j))
  {
    match FindRun(s, 0)
    case None =>
      if ContainsMatch(s) {
        var i: nat :| PatternAt(s, i);
        PatternIsRun(s, i);
      }
    case Some(i) =>
      assert PatternAt(s, i);
      forall j: nat | j < i ensures !PatternAt(s, j) {
        PatternIsRun(s, j);
      }
  }

  /** `isValidId(idString)`: `true`, or the error it throws. */
  function IsValidId(idString: string): Result<bool>
  {
    if FindRun(idString, 0).Some? then Return(true) else Throw(Error(INVALID_ID))
  }

  /** `isValidId` never returns `false`: it returns `true` exactly when the
      pattern matches somewhere in the string and throws otherwise. */
  lemma IsValidIdIff(idString: string)
    ensures IsValidId(idString) == Return(true) <==> ContainsMatch(idString)
    ensures IsValidId(idString) != Return(true) ==> IsValidId(idString) == Throw(Error(INVALID_ID))
  {
    ExecLeftmost(idString);
  }

  /** The pattern is not anchored: text around a valid id keeps it valid. */
  lemma IsValidIdUnanchored(prefix: string, idString: string, suffix: string)
    requires IsValidId(idString) == Return(true)
    ensures IsValidId(prefix + idString + suffix) == Return(true)
  {
    IsValidIdIff(idString);
    var i: nat :| PatternAt(idString, i);
    PatternIsRun(idString, i);
    var t := prefix + idString + suffix;
    forall j | |prefix| + i <= j < |prefix| + i + 15 ensures IsAlnum(t[j]) {
      assert t[j] == idString[j - |prefix|];
    }
    assert PatternAt(t, |prefix| + i);
    IsValidIdIff(t);
  }

  /** `getIdFromLocation(location)` as written: with no match `exec` returns
      `null` and reading its `length` throws a `TypeError`; a match always has
      length one, so the intended error is never thrown. */
  function GetIdFromLocationAsWritten(pathname: string): Result<string>
  {
    match Exec(pathname)
    case None => Throw(TypeError)
    case Some(m) => Return(m)
  }

  /** `getIdFromLocation` with `null` tested before `length`: no match
      throws the error the function means to throw. */
  function GetIdFromLocation(pathname: string): Result<string>
  {
    match Exec(pathname)
    case None => Throw(Error(NO_ID_IN_LOCATION))
    case Some(m) => Return(m)
  }

  /** Both versions return the leftmost fifteen-character match when there
      is one; where there is none, the written one throws a `TypeError` and
      never its own error, the corrected one throws its own error. */
  lemma GetIdFromLocationCases(pathname: string)
    ensures GetIdFromLocation(pathname).Return? <==> ContainsMatch(pathname)
    ensures GetIdFromLocationAsWritten(pathname).Return? <==> ContainsMatch(pathname)
    ensures ContainsMatch(pathname) ==>
      GetIdFromLocation(pathname) == GetIdFromLocationAsWritten(pathname) == Return(Exec(pathname).value)
    ensures !ContainsMatch(pathname) ==>
      GetIdFromLocationAsWritten(pathname) == Throw(TypeError)
      && GetIdFromLocation(pathname) == Throw(Error(NO_ID_IN_LOCATION))
  {
    ExecLeftmost(pathname);
  }

  /** The home page path holds no id: as written the lookup fails with a
      `TypeError`. */
  lemma NoIdExample()
    ensures GetIdFromLocationAsWritten("/home/home.jsp") == Throw(TypeError)
    ensures GetIdFromLocation("/home/home.jsp") == Throw(Error(NO_ID_IN_LOCATION))
  {
    assert FindRun("/home/home.jsp", 0).None?;
  }

  /** An eighteen-character id in a record path: the match is its first
      fifteen characters. */
  lemma LongIdExample()
    ensures GetIdFromLocation("/001000000000001AAA") == Return("001000000000001")
  {
    var p := "/001000000000001AAA";
    assert !IsAlnum(p[0]);
    assert RunAt(p, 1, 15);
    assert FindRun(p, 0) == Some(1);
    assert p[1..16] == "001000000000001";
  }
}
