/** The error classifier of the team store: it turns whatever a backend
    call threw into the one-line message the UI shows. The thrown value is
    a closed variant: a database (PostgREST) error with its code, optional
    details and message; any other JavaScript Error with its message; or a
    value that is not an Error at all. */
module Errors {
  import opened Domain

  datatype Thrown =
    | PostgrestError(code: string, details: Option<string>, message: string)
    | JsError(message: string)
    | NotAnError

  /** What every store operation returns: success, or a message. */
  datatype Outcome = Success | Failure(message: string)

  /** The failure of a backend call that is made only when `issued`. */
  function Issued(issued: bool, failure: Option<Thrown>): (r: Option<Thrown>)
    ensures !issued ==> r == None
    ensures issued ==> r == failure
  {
    if issued then failure else None
  }

  /** The first failing call of a sequence of awaited backend calls; the
      calls after it are never made. */
  function FirstFailure(calls: seq<Option<Thrown>>): (r: Option<Thrown>)
    ensures r.None? <==> forall k :: 0 <= k < |calls| ==> calls[k].None?
    ensures r.Some? ==> exists k :: 0 <= k < |calls| && calls[k] == r
                                   && forall j :: 0 <= j < k ==> calls[j].None?
  {
    if |calls| == 0 then None
    else if calls[0].Some? then calls[0]
    else FirstFailure(calls[1..])
  }

  /** The outcome of a try block around `calls`: success when none fails,
      otherwise the classified message of the first failure. */
  function Attempt(calls: seq<Option<Thrown>>): (r: Outcome)
    ensures r.Success? <==> forall k :: 0 <= k < |calls| ==> calls[k].None?
    ensures r.Failure? ==> r.message == ParseSupabaseError(FirstFailure(calls).value)
  {
    match FirstFailure(calls)
    case None => Success
    case Some(e) => Failure(ParseSupabaseError(e))
  }

  const DuplicateLineupMessage := "A lineup with this name already exists."
  const ConflictMessage := "This item already exists or conflicts with another item."
  const ForeignKeyMessage := "Could not perform action due to related data. Please check dependencies."
  const PermissionMessage := "You do not have permission to perform this action."
  const NotFoundMessage := "The requested item could not be found."
  const DatabaseFallbackMessage := "A database error occurred."
  const NetworkMessage := "Network error. Please check your connection and try again."
  const UnexpectedMessage := "An unexpected error occurred."
  const UnknownMessage := "An unknown error occurred."

  /** The unique constraint on (team, lineup name) of the saved lineups. */
  const SavedLineupNameKey := "saved_lineups_team_id_name_key"

  // ---------------------------------------------------------------------
  // String helpers

  /** ASCII lower-casing of one character. */
  function LowerChar(c: char): (r: char)
    ensures 'A' <= c <= 'Z' ==> r as int == c as int + 32
    ensures !('A' <= c <= 'Z') ==> r == c
    ensures !('A' <= r <= 'Z')
  {
    if 'A' <= c <= 'Z' then (c as int + 32) as char else c
  }

  /** `toLowerCase`, restricted to the ASCII letters. */
  function Lower(s: string): (r: string)
    ensures |r| == |s|
    ensures forall i :: 0 <= i < |s| ==> r[i] == LowerChar(s[i])
  {
    if |s| == 0 then "" else [LowerChar(s[0])] + Lower(s[1..])
  }

  lemma LowerIdempotent(s: string)
    ensures Lower(Lower(s)) == Lower(s)
  {
  }

  /** `hay.includes(needle)`, as a search from the left. */
  predicate Contains(hay: string, needle: string)
    decreases |hay|
  {
    |needle| <= |hay| && (hay[..|needle|] == needle || Contains(hay[1..], needle))
  }

  /** The window of `hay` at `k` is `needle`. */
  predicate WindowAt(hay: string, needle: string, k: int) {
    0 <= k <= |hay| - |needle| && hay[k..k + |needle|] == needle
  }

  /** The search finds `needle` exactly when some window of `hay` equals it. */
  lemma {:induction false} ContainsIffWindow(hay: string, needle: string)
    ensures Contains(hay, needle) <==> exists k :: WindowAt(hay, needle, k)
    decreases |hay|
  {
    if |needle| <= |hay| && hay[..|needle|] != needle {
      ContainsIffWindow(hay[1..], needle);
      if Contains(hay[1..], needle) {
        var k :| WindowAt(hay[1..], needle, k);
        assert hay[k + 1..k + 1 + |needle|] == hay[1..][k..k + |needle|];
        assert WindowAt(hay, needle, k + 1);
      }
      if exists k :: WindowAt(hay, needle, k) {
        var k :| WindowAt(hay, needle, k);
        assert k != 0;
        assert hay[1..][k - 1..k - 1 + |needle|] == hay[k..k + |needle|];
        assert WindowAt(hay[1..], needle, k - 1);
      }
    } else if |needle| <= |hay| {
      assert WindowAt(hay, needle, 0);
    }
  }

  /** The network test of the classifier: the lower-cased message mentions
      a failed request or a failed fetch. */
  predicate IsNetworkMessage(m: string) {
    Contains(Lower(m), "network request failed") || Contains(Lower(m), "failed to fetch")
  }

  /** The network test ignores letter case. */
  lemma NetworkTestIgnoresCase(m: string)
    ensures IsNetworkMessage(m) <==> IsNetworkMessage(Lower(m))
  {
    LowerIdempotent(m);
  }

  // ---------------------------------------------------------------------
  // The classifier

  function ParseSupabaseError(e: Thrown): (r: string)
    ensures (e.PostgrestError? && e.code == "23505" && e.details.Some? && Contains(e.details.value, SavedLineupNameKey))
              ==> r == DuplicateLineupMessage
    ensures (e.PostgrestError? && e.code == "23505" && !(e.details.Some? && Contains(e.details.value, SavedLineupNameKey)))
              ==> r == ConflictMessage
    ensures e.PostgrestError? && e.code == "23503" ==> r == ForeignKeyMessage
    ensures e.PostgrestError? && e.code == "42501" ==> r == PermissionMessage
    ensures e.PostgrestError? && e.code == "PGRST116" ==> r == NotFoundMessage
    ensures (e.PostgrestError? && e.code !in {"23505", "23503", "42501", "PGRST116"})
              ==> r == (if e.message != "" then e.message else DatabaseFallbackMessage)
    ensures e.JsError? && IsNetworkMessage(e.message) ==> r == NetworkMessage
    ensures (e.JsError? && !IsNetworkMessage(e.message))
              ==> r == (if e.message != "" then e.message else UnexpectedMessage)
    ensures e.NotAnError? ==> r == UnknownMessage
    ensures r != ""
  {
    match e
    case PostgrestError(code, details, message) =>
      if code == "23505" then
        if details.Some? && Contains(details.value, SavedLineupNameKey) then DuplicateLineupMessage
        else ConflictMessage
      else if code == "23503" then ForeignKeyMessage
      else if code == "42501" then PermissionMessage
      else if code == "PGRST116" then NotFoundMessage
      else if message != "" then message
      else DatabaseFallbackMessage
    case JsError(message) =>
      if IsNetworkMessage(message) then NetworkMessage
      else if message != "" then message
      else UnexpectedMessage
    case NotAnError => UnknownMessage
  }

  /** An error the store raised itself (a precondition in the store, not a
      backend failure) reaches the UI with its own message. */
  lemma OwnErrorsKeepTheirMessage(m: string)
    requires m != "" && !IsNetworkMessage(m)
    ensures ParseSupabaseError(JsError(m)) == m
  {
  }

  // ---------------------------------------------------------------------
  // Trimming

  /** Whitespace as `String.prototype.trim` strips it: the ECMAScript
      WhiteSpace characters (tab, vertical tab, form feed, space, no-break
      space, the byte-order mark and the other Unicode space separators)
      and LineTerminator characters (line feed, carriage return, line and
      paragraph separators). */
  predicate IsSpace(c: char) {
    c == ' ' || c == '\t' || c == '\n' || c == '\r' || c == '\U{000B}' || c == '\U{000C}'
    || c == '\U{00A0}' || c == '\U{1680}' || ('\U{2000}' <= c <= '\U{200A}')
    || c == '\U{2028}' || c == '\U{2029}' || c == '\U{202F}' || c == '\U{205F}'
    || c == '\U{3000}' || c == '\U{FEFF}'
  }

  lemma TrimStripsUnicodeSpaces()
    ensures Trim("\U{3000}a\U{2028}") == "a"
    ensures Trim("\U{1680}\U{2005}\U{202F}\U{205F}") == ""
  {
    assert "\U{3000}a\U{2028}"[1..] == "a\U{2028}";
    assert "a\U{2028}"[..1] == "a";
  }

  function TrimStart(s: string): (r: string)
    ensures |r| <= |s| && r == s[|s| - |r|..]
    ensures |r| > 0 ==> !IsSpace(r[0])
    ensures forall i :: 0 <= i < |s| - |r| ==> IsSpace(s[i])
  {
    if |s| > 0 && IsSpace(s[0]) then TrimStart(s[1..]) else s
  }

  function TrimEnd(s: string): (r: string)
    ensures |r| <= |s| && r == s[..|r|]
    ensures |r| > 0 ==> !IsSpace(r[|r| - 1])
    ensures forall i :: |r| <= i < |s| ==> IsSpace(s[i])
  {
    if |s| > 0 && IsSpace(s[|s| - 1]) then TrimEnd(s[..|s| - 1]) else s
  }

  function Trim(s: string): (r: string)
    ensures |r| > 0 ==> !IsSpace(r[0]) && !IsSpace(r[|r| - 1])
    ensures |r| <= |s|
    ensures (forall i :: 0 <= i < |s| ==> IsSpace(s[i])) <==> r == ""
  {
    TrimEnd(TrimStart(s))
  }
}
