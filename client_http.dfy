/** What the browser-side API clients put on the wire and read back: JSON
    object bodies and URL query strings as ordered key/value entries, and
    the error message a failed request throws. The network itself is not
    modelled; a reply is an input. */
module ClientHttp {
  import opened Wrappers

  datatype JsonValue = JStr(s: string) | JNum(n: int) | JBool(b: bool)

  /** A JSON object or a `URLSearchParams`: entries in insertion order. */
  type Entries<V> = seq<(string, V)>

  /** The value of the first entry named `key`. */
  function Lookup<V>(entries: Entries<V>, key: string): (r: Option<V>)
    ensures r.Some? <==> exists i :: 0 <= i < |entries| && entries[i].0 == key
    ensures r.Some? ==> (key, r.value) in entries
  {
    if entries == [] then None
    else if entries[0].0 == key then Some(entries[0].1)
    else
      var r := Lookup(entries[1..], key);
      assert forall i :: 1 <= i < |entries| ==> entries[i] == entries[1..][i - 1];
      if r.None? then r
      else
        assert (key, r.value) in entries[1..];
        r
  }

  function Keys<V>(entries: Entries<V>): (r: seq<string>)
    ensures |r| == |entries|
    ensures forall i :: 0 <= i < |entries| ==> r[i] == entries[i].0
  {
    if entries == [] then [] else [entries[0].0] + Keys(entries[1..])
  }

  predicate UniqueKeys<V>(entries: Entries<V>) {
    forall i, j :: 0 <= i < j < |entries| ==> entries[i].0 != entries[j].0
  }

  /** `params.set(key, value)` and `object[key] = value`: an existing entry
      keeps its place and takes the new value, a new key goes last. */
  function SetEntry<V>(entries: Entries<V>, key: string, value: V): (r: Entries<V>)
    ensures Lookup(r, key) == Some(value)
    ensures forall k :: k != key ==> Lookup(r, k) == Lookup(entries, k)
    ensures Lookup(entries, key).Some? ==> Keys(r) == Keys(entries)
    ensures Lookup(entries, key).None? ==> Keys(r) == Keys(entries) + [key]
  {
    if entries == [] then [(key, value)]
    else if entries[0].0 == key then [(key, value)] + entries[1..]
    else
      var rest := SetEntry(entries[1..], key, value);
      LookupCons(entries[0], rest, key);
      SetEntryStepLookup(entries, key, rest);
      SetEntryStepKeys(entries, key, rest);
      [entries[0]] + rest
  }

  /** Looking up in a list with a given first entry. */
  lemma LookupCons<V>(e: (string, V), rest: Entries<V>, k: string)
    ensures Lookup([e] + rest, k) == if e.0 == k then Some(e.1) else Lookup(rest, k)
  {
    assert ([e] + rest)[1..] == rest;
  }

  /** The keys after the step of `SetEntry` past a first entry with
      another key. */
  lemma SetEntryStepKeys<V>(entries: Entries<V>, key: string, rest: Entries<V>)
    requires entries != [] && entries[0].0 != key
    requires Lookup(entries[1..], key).Some? ==> Keys(rest) == Keys(entries[1..])
    requires Lookup(entries[1..], key).None? ==> Keys(rest) == Keys(entries[1..]) + [key]
    ensures Lookup(entries, key).Some? ==> Keys([entries[0]] + rest) == Keys(entries)
    ensures Lookup(entries, key).None? ==> Keys([entries[0]] + rest) == Keys(entries) + [key]
  {
    assert entries == [entries[0]] + entries[1..];
    LookupCons(entries[0], entries[1..], key);
    KeysCons(entries[0], rest);
    KeysCons(entries[0], entries[1..]);
  }

  /** The lookups after the step of `SetEntry` past a first entry. */
  lemma SetEntryStepLookup<V>(entries: Entries<V>, key: string, rest: Entries<V>)
    requires entries != []
    requires forall k :: k != key ==> Lookup(rest, k) == Lookup(entries[1..], k)
    ensures forall k :: k != key ==> Lookup([entries[0]] + rest, k) == Lookup(entries, k)
  {
    assert entries == [entries[0]] + entries[1..];
    forall k | k != key ensures Lookup([entries[0]] + rest, k) == Lookup(entries, k) {
      LookupCons(entries[0], rest, k);
      LookupCons(entries[0], entries[1..], k);
    }
  }

  lemma KeysCons<V>(e: (string, V), rest: Entries<V>)
    ensures Keys([e] + rest) == [e.0] + Keys(rest)
  {
    assert ([e] + rest)[1..] == rest;
  }

  /** Setting never introduces a second entry with the same name. */
  lemma SetEntryKeepsKeysUnique<V>(entries: Entries<V>, key: string, value: V)
    requires UniqueKeys(entries)
    ensures UniqueKeys(SetEntry(entries, key, value))
  {
    var r := SetEntry(entries, key, value);
    var ks, kr := Keys(entries), Keys(r);
    forall i, j | 0 <= i < j < |r| ensures r[i].0 != r[j].0 {
      assert r[i].0 == kr[i] && r[j].0 == kr[j];
      if Lookup(entries, key).Some? {
        assert entries[i].0 == ks[i] && entries[j].0 == ks[j];
      } else if j < |entries| {
        assert kr[i] == ks[i] == entries[i].0 && kr[j] == ks[j] == entries[j].0;
      } else {
        assert kr[j] == key && kr[i] == ks[i] == entries[i].0;
      }
    }
  }

  /** The string the server put in the `error` field, or '' when the field
      is missing, empty or not a string. */
  function ErrorField(body: Entries<JsonValue>): (r: string)
    ensures r != "" ==> Lookup(body, "error") == Some(JStr(r))
  {
    match Lookup<JsonValue>(body, "error")
    case Some(JStr(s)) => s
    case _ => ""
  }

  /** Why a request failed, as the caller sees the thrown error. */
  datatype Failure = Thrown(message: string) | SyntaxError

  /** `throw new Error(error.error || fallback)` after `await
      response.json()`: a body that is not JSON makes the parse itself throw. */
  function ServerFailure(body: Option<Entries<JsonValue>>, fallback: string): (r: Failure)
    ensures body.None? <==> r.SyntaxError?
    ensures body.Some? && ErrorField(body.value) != "" ==> r == Thrown(ErrorField(body.value))
    ensures body.Some? && ErrorField(body.value) == "" ==> r == Thrown(fallback)
  {
    match body
    case None => SyntaxError
    case Some(b) => Thrown(if ErrorField(b) != "" then ErrorField(b) else fallback)
  }

  /** The same with `.catch(() => ({ error: 'Network error' }))` on the
      parse: a body that is not JSON gives 'Network error'. */
  function ServerFailureCaught(body: Option<Entries<JsonValue>>, fallback: string): (r: string)
    ensures body.None? ==> r == "Network error"
    ensures ServerFailure(body, fallback).Thrown? ==> r == ServerFailure(body, fallback).message
  {
    match body
    case None => "Network error"
    case Some(b) => if ErrorField(b) != "" then ErrorField(b) else fallback
  }

  /** A request as the client sends it. */
  datatype Request = Request(httpMethod: string, url: string, body: Option<Entries<JsonValue>>)
}
