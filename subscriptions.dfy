/**
 * `saveLocal` of scripts/script.js: the fallback that keeps newsletter sign-ups in the browser.
 *
 * The list lives under the storage key "subs" as JSON text. The model keeps what that text parses to:
 * nothing stored (a missing or empty entry, which the script replaces with "[]"), text that does not
 * parse, or a list of strings.
 */
module Subscriptions {

  /** What `JSON.parse(localStorage.getItem('subs') || '[]')` meets. */
  datatype Stored = Missing | Malformed | List(items: seq<string>)

  /** The list `saveLocal` starts from: a parse failure is caught and treated as the empty list. */
  function Load(stored: Stored): seq<string>
  {
    match stored
    case List(items) => items
    case _ => []
  }

  /** No entry occurs twice. */
  predicate NoDuplicates(s: seq<string>)
  {
    forall i, j :: 0 <= i < j < |s| ==> s[i] != s[j]
  }

  /** The list `saveLocal` writes back. */
  function SaveLocal(stored: Stored, email: string): (subs: seq<string>)
    ensures Load(stored) <= subs
    ensures email in subs
    ensures email in Load(stored) ==> subs == Load(stored)
    ensures email !in Load(stored) ==> subs == Load(stored) + [email]
    ensures forall e :: e in subs <==> e in Load(stored) || e == email
  {
    var subs := Load(stored);
    if email !in subs then subs + [email] else subs
  }

  /** A list without duplicates stays without duplicates. */
  lemma SaveKeepsNoDuplicates(stored: Stored, email: string)
    requires NoDuplicates(Load(stored))
    ensures NoDuplicates(SaveLocal(stored, email))
  {
    var before := Load(stored);
    var subs := SaveLocal(stored, email);
    if email !in before {
      forall i, j | 0 <= i < j < |subs|
        ensures subs[i] != subs[j]
      {
        if j == |before| {
          assert subs[i] == before[i];
        }
      }
    }
  }

  /** Saving the same address again writes the same list. */
  lemma SaveIdempotent(stored: Stored, email: string)
    ensures SaveLocal(List(SaveLocal(stored, email)), email) == SaveLocal(stored, email)
  {
  }

  /** An unparsable entry is replaced by a list holding just the new address. */
  lemma MalformedStartsOver(email: string)
    ensures SaveLocal(Malformed, email) == [email] && SaveLocal(Missing, email) == [email]
  {
  }
}
