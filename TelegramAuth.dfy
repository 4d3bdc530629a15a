/** `get_user_from_telegram_auth`: checking the init data a Telegram Mini
    App sends, as described in Telegram's "Validating data received via the
    Mini App". The query string is parsed as `urllib.parse.parse_qs` does
    (with its defaults), only the first value of each key is kept, `hash` is
    taken out, and the remaining `key=value` lines, sorted by key and joined
    by line feeds, form the data-check string. That string must hash to the
    `hash` sent along.

    Percent-decoding (`unquote`, after '+' has become a space) and the
    HMAC-SHA256 hex digest under the server's secret are foreign code; they
    are the parameters `unquote` and `hmacHex`. */
module TelegramAuth {
  import opened Wrappers
  import opened Strings
  import opened Http

  const InvalidTelegramAuth := HttpException(401, "Invalid Telegram auth data")
  const HashKey := "hash"

  /** One decoded `key=value` pair of the query string. */
  datatype Param = Param(key: string, value: string)

  // ---------------------------------------------------------------------
  // parse_qsl
  // ---------------------------------------------------------------------

  /** One `&`-separated piece: skipped when it is empty, has no '=' or has
      nothing after its first '='; otherwise split at its first '=' and
      both sides decoded. */
  function ParsePiece(piece: string, unquote: string -> string): (r: Option<Param>)
    ensures r.None? <==> '=' !in piece || FirstIndexOf(piece, '=') == |piece| - 1
  {
    if '=' !in piece then None
    else
      var i := FirstIndexOf(piece, '=');
      if i == |piece| - 1 then None
      else Some(Param(unquote(piece[..i]), unquote(piece[i + 1..])))
  }

  /** A piece built as a key without '=', an '=', and a non-empty value is
      parsed back into that key and value. */
  lemma ParsePieceOf(key: string, value: string, unquote: string -> string)
    requires '=' !in key && value != ""
    ensures ParsePiece(key + "=" + value, unquote) == Some(Param(unquote(key), unquote(value)))
  {
    var piece := key + "=" + value;
    assert piece[|key|] == '=';
    var i := FirstIndexOf(piece, '=');
    assert piece[..i] == key && piece[i + 1..] == value;
  }

  /** The pairs of the pieces that are not skipped, in order. */
  function ParsePieces(pieces: seq<string>, unquote: string -> string): (r: seq<Param>)
    ensures |r| <= |pieces|
    ensures |r| == |pieces| <==> forall k :: 0 <= k < |pieces| ==> ParsePiece(pieces[k], unquote).Some?
  {
    if pieces == [] then []
    else
      var rest := ParsePieces(pieces[1..], unquote);
      assert forall k :: 1 <= k < |pieces| ==> pieces[1..][k - 1] == pieces[k];
      match ParsePiece(pieces[0], unquote)
      case None => rest
      case Some(p) => [p] + rest
  }

  /** `parse_qsl(qs)`: the string cut at every '&'. */
  function ParseQsl(qs: string, unquote: string -> string): seq<Param> {
    ParsePieces(Split(qs, '&'), unquote)
  }

  /** The encoding a client would produce: `key=value` pieces joined by '&'. */
  function EncodeQuery(params: seq<Param>): string {
    Join(Lines(params), "&")
  }

  /** The `key=value` text of each pair: the pieces of a query string, and
      the lines of the data-check string. */
  function Lines(params: seq<Param>): (r: seq<string>)
    ensures |r| == |params|
    ensures forall i :: 0 <= i < |params| ==> r[i] == params[i].key + "=" + params[i].value
  {
    if params == [] then [] else [params[0].key + "=" + params[0].value] + Lines(params[1..])
  }

  /** Params as the client meant them. */
  function Decoded(params: seq<Param>, unquote: string -> string): (r: seq<Param>)
    ensures |r| == |params|
    ensures forall i :: 0 <= i < |params| ==>
              r[i] == Param(unquote(params[i].key), unquote(params[i].value))
  {
    if params == [] then [] else [Param(unquote(params[0].key), unquote(params[0].value))] + Decoded(params[1..], unquote)
  }

  /** A well-formed query parses back into its pairs: keys without '=' or
      '&', non-empty values without '&'. */
  lemma {:induction false} ParseQslOfEncoded(params: seq<Param>, unquote: string -> string)
    requires |params| >= 1
    requires forall i :: 0 <= i < |params| ==>
               '=' !in params[i].key && '&' !in params[i].key && '&' !in params[i].value && params[i].value != ""
    ensures ParseQsl(EncodeQuery(params), unquote) == Decoded(params, unquote)
  {
    var pieces := Lines(params);
    forall k | 0 <= k < |pieces|
      ensures '&' !in pieces[k]
    {
      assert pieces[k] == params[k].key + "=" + params[k].value;
    }
    SplitJoin(pieces, '&');
    ParsePiecesOfEncoded(params, unquote);
  }

  lemma {:induction false} ParsePiecesOfEncoded(params: seq<Param>, unquote: string -> string)
    requires forall i :: 0 <= i < |params| ==> '=' !in params[i].key && params[i].value != ""
    ensures ParsePieces(Lines(params), unquote) == Decoded(params, unquote)
    decreases |params|
  {
    if params != [] {
      var pieces := Lines(params);
      assert pieces[1..] == Lines(params[1..]);
      ParsePieceOf(params[0].key, params[0].value, unquote);
      ParsePiecesOfEncoded(params[1..], unquote);
      assert Decoded(params, unquote)[1..] == Decoded(params[1..], unquote);
    }
  }

  // ---------------------------------------------------------------------
  // {k: v[0] for k, v in parse_qs(...).items()}
  // ---------------------------------------------------------------------

  predicate DistinctKeys(ps: seq<Param>) {
    forall i, j :: 0 <= i < j < |ps| ==> ps[i].key != ps[j].key
  }

  /** The dictionary in insertion order: each key's first pair, skipping the
      keys already in `seen`. */
  function FirstOccurrences(ps: seq<Param>, seen: set<string>): (r: seq<Param>)
    ensures DistinctKeys(r)
    ensures forall q :: q in r ==> q in ps && q.key !in seen
  {
    if ps == [] then []
    else if ps[0].key in seen then FirstOccurrences(ps[1..], seen)
    else [ps[0]] + FirstOccurrences(ps[1..], seen + {ps[0].key})
  }

  /** A pair whose key has not occurred before it is the one kept: with
      distinct keys in the result, no later value for that key is. */
  lemma {:induction false} FirstValueKept(ps: seq<Param>, seen: set<string>, i: int)
    requires 0 <= i < |ps| && ps[i].key !in seen
    requires forall j :: 0 <= j < i ==> ps[j].key != ps[i].key
    ensures ps[i] in FirstOccurrences(ps, seen)
    decreases i
  {
    if i > 0 {
      var seen' := if ps[0].key in seen then seen else seen + {ps[0].key};
      assert ps[1..][i - 1] == ps[i];
      FirstValueKept(ps[1..], seen', i - 1);
    }
  }

  /** Every key of the input is in the result. */
  lemma {:induction false} EveryKeyKept(ps: seq<Param>, seen: set<string>, i: int)
    requires 0 <= i < |ps| && ps[i].key !in seen
    ensures exists q :: q in FirstOccurrences(ps, seen) && q.key == ps[i].key
  {
    var j := FirstIndexOfKey(ps, ps[i].key);
    FirstValueKept(ps, seen, j);
  }

  function FirstIndexOfKey(ps: seq<Param>, key: string): (j: nat)
    requires exists i :: 0 <= i < |ps| && ps[i].key == key
    ensures j < |ps| && ps[j].key == key
    ensures forall k :: 0 <= k < j ==> ps[k].key != key
  {
    if ps[0].key == key then 0
    else
      assert exists i :: 0 <= i < |ps[1..]| && ps[1..][i].key == key by {
        var i :| 0 <= i < |ps| && ps[i].key == key;
        assert ps[1..][i - 1] == ps[i];
      }
      1 + FirstIndexOfKey(ps[1..], key)
  }

  // ---------------------------------------------------------------------
  // data.pop("hash", None)
  // ---------------------------------------------------------------------

  /** The value stored under `key`, if any. */
  function Lookup(ps: seq<Param>, key: string): (r: Option<string>)
    ensures r.None? <==> forall q :: q in ps ==> q.key != key
    ensures r.Some? ==> Param(key, r.value) in ps
  {
    if ps == [] then None
    else if ps[0].key == key then Some(ps[0].value)
    else Lookup(ps[1..], key)
  }

  /** The entries whose key is not `key`, in order. */
  function RemoveKey(ps: seq<Param>, key: string): (r: seq<Param>)
    ensures forall q :: q in r <==> q in ps && q.key != key
    ensures DistinctKeys(ps) ==> DistinctKeys(r)
  {
    if ps == [] then []
    else
      var rest := RemoveKey(ps[1..], key);
      if ps[0].key == key then rest
      else
        assert DistinctKeys(ps) ==> forall q :: q in rest ==> q.key != ps[0].key by {
          if DistinctKeys(ps) {
            forall q | q in rest ensures q.key != ps[0].key {
              var k :| 1 <= k < |ps| && ps[k] == q;
            }
          }
        }
        [ps[0]] + rest
  }

  // ---------------------------------------------------------------------
  // sorted(data.items())
  // ---------------------------------------------------------------------

  /** With distinct keys, no rearrangement of the later pairs repeats the
      first pair's key. */
  lemma LaterKeysDiffer(ps: seq<Param>, rest: seq<Param>)
    requires ps != [] && DistinctKeys(ps) && multiset(rest) == multiset(ps[1..])
    ensures forall q :: q in rest ==> q.key != ps[0].key
  {
    forall q | q in rest ensures q.key != ps[0].key {
      assert q in multiset(ps[1..]);
      var k :| 0 <= k < |ps[1..]| && ps[1..][k] == q;
      assert ps[k + 1] == q;
    }
  }

  /** Each key comes strictly before the next one. */
  predicate Sorted(ps: seq<Param>) {
    forall i :: 0 <= i < |ps| - 1 ==> StrLess(ps[i].key, ps[i + 1].key)
  }

  function Insert(p: Param, ps: seq<Param>): (r: seq<Param>)
    ensures |r| == |ps| + 1
    ensures multiset(r) == multiset(ps) + multiset{p}
    ensures r[0] == p || (ps != [] && r[0] == ps[0])
  {
    if ps == [] || StrLess(p.key, ps[0].key) then [p] + ps
    else
      assert ps == [ps[0]] + ps[1..];
      [ps[0]] + Insert(p, ps[1..])
  }

  lemma {:induction false} InsertSorted(p: Param, ps: seq<Param>)
    requires Sorted(ps)
    requires forall q :: q in ps ==> q.key != p.key
    ensures Sorted(Insert(p, ps))
  {
    if ps != [] && !StrLess(p.key, ps[0].key) {
      StrLessTotal(p.key, ps[0].key);
      var rest := Insert(p, ps[1..]);
      assert forall q :: q in ps[1..] ==> q in ps;
      InsertSorted(p, ps[1..]);
      assert |ps| > 1 ==> ps[1..][0] == ps[1];
      assert Insert(p, ps) == [ps[0]] + rest;
    }
  }

  /** Insertion sort by key, standing for `sorted` on pairs whose keys are
      distinct (so the value never decides the order). */
  function SortByKey(ps: seq<Param>): (r: seq<Param>)
    requires DistinctKeys(ps)
    ensures multiset(r) == multiset(ps)
    ensures Sorted(r)
  {
    if ps == [] then []
    else
      assert DistinctKeys(ps[1..]);
      var rest := SortByKey(ps[1..]);
      assert ps == [ps[0]] + ps[1..];
      LaterKeysDiffer(ps, rest);
      InsertSorted(ps[0], rest);
      Insert(ps[0], rest)
  }

  /** In a sorted sequence every key comes strictly before all later ones. */
  lemma {:induction false} SortedPairwise(ps: seq<Param>, i: int, j: int)
    requires Sorted(ps) && 0 <= i < j < |ps|
    ensures StrLess(ps[i].key, ps[j].key)
    decreases j - i
  {
    if j > i + 1 {
      SortedPairwise(ps, i + 1, j);
      StrLessTransitive(ps[i].key, ps[i + 1].key, ps[j].key);
    }
  }

  /** Two sorted arrangements of the same pairs start with the same pair
      (the one with the least key). */
  lemma SortedSameFirst(a: seq<Param>, b: seq<Param>)
    requires Sorted(a) && Sorted(b) && multiset(a) == multiset(b) && a != []
    ensures b != [] && a[0] == b[0]
  {
    assert a[0] in multiset(b);
    assert b != [];
    assert b[0] in multiset(a);
    if a[0] != b[0] {
      var i :| 0 <= i < |a| && a[i] == b[0];
      var j :| 0 <= j < |b| && b[j] == a[0];
      SortedPairwise(a, 0, i);
      SortedPairwise(b, 0, j);
      StrLessTransitive(a[0].key, b[0].key, a[0].key);
      StrLessIrreflexive(a[0].key);
    }
  }

  /** Dropping the first pair keeps a sequence sorted and takes that pair
      out of its multiset. */
  lemma SortedTail(a: seq<Param>)
    requires Sorted(a) && a != []
    ensures Sorted(a[1..])
    ensures multiset(a[1..]) == multiset(a) - multiset{a[0]}
  {
    assert a == [a[0]] + a[1..];
  }

  /** Sorting has one answer: two sorted arrangements of the same pairs are
      the same sequence, so the data-check string does not depend on the
      order in which the parameters were sent. */
  lemma {:induction false} SortedUnique(a: seq<Param>, b: seq<Param>)
    requires Sorted(a) && Sorted(b) && multiset(a) == multiset(b)
    ensures a == b
    decreases |a|
  {
    if a == [] {
      assert |multiset(b)| == 0;
    } else {
      SortedSameFirst(a, b);
      SortedTail(a);
      SortedTail(b);
      SortedUnique(a[1..], b[1..]);
      assert a == [a[0]] + a[1..] && b == [b[0]] + b[1..];
    }
  }

  // ---------------------------------------------------------------------
  // The data-check string and the verdict
  // ---------------------------------------------------------------------

  /** `"\n".join(f"{k}={v}" for k, v in sorted(data.items()))`. */
  function CheckString(data: seq<Param>): string
    requires DistinctKeys(data)
  {
    Join(Lines(SortByKey(data)), "\n")
  }

  /** The data-check string has exactly one line per pair, in key order and
      with nothing after the last line, whenever no key or value holds a
      line feed. */
  lemma CheckStringLines(data: seq<Param>)
    requires DistinctKeys(data) && |data| >= 1
    requires forall q :: q in data ==> '\n' !in q.key && '\n' !in q.value
    ensures var sorted := SortByKey(data);
            && Sorted(sorted) && multiset(sorted) == multiset(data)
            && Split(CheckString(data), '\n') == Lines(sorted)
  {
    var sorted := SortByKey(data);
    assert |sorted| == |data| by { assert |multiset(sorted)| == |multiset(data)|; }
    assert forall q :: q in sorted ==> q in data by {
      forall q | q in sorted ensures q in data {
        assert q in multiset(sorted);
      }
    }
    LinesWithout(sorted, '\n');
    SplitJoin(Lines(sorted), '\n');
  }

  /** A character other than '=' that no key or value holds is in no line. */
  lemma LinesWithout(ps: seq<Param>, c: char)
    requires c != '='
    requires forall q :: q in ps ==> c !in q.key && c !in q.value
    ensures forall k :: 0 <= k < |ps| ==> c !in Lines(ps)[k]
  {
    forall k | 0 <= k < |ps|
      ensures c !in Lines(ps)[k]
    {
      assert ps[k] in ps;
      assert Lines(ps)[k] == ps[k].key + "=" + ps[k].value;
    }
  }

  /** Two sets of parameters that are the same pairs in another order give
      the same data-check string. */
  lemma CheckStringOrderFree(a: seq<Param>, b: seq<Param>)
    requires DistinctKeys(a) && DistinctKeys(b) && multiset(a) == multiset(b)
    ensures CheckString(a) == CheckString(b)
  {
    SortedUnique(SortByKey(a), SortByKey(b));
  }

  /** The dictionary the handler builds, before `hash` is popped. */
  function InitData(authToken: string, unquote: string -> string): (r: seq<Param>)
    ensures DistinctKeys(r)
  {
    FirstOccurrences(ParseQsl(authToken, unquote), {})
  }

  /** `get_user_from_telegram_auth`: the data without `hash` when the digest
      of its check string equals the `hash` sent, and 401 otherwise, in
      particular always when no `hash` was sent. */
  function GetUserFromTelegramAuth(authToken: string, unquote: string -> string, hmacHex: string -> string)
    : (r: Result<seq<Param>, HttpException>)
    ensures var items := InitData(authToken, unquote);
            var data := RemoveKey(items, HashKey);
            && (r.Ok? <==> Lookup(items, HashKey).Some? && hmacHex(CheckString(data)) == Lookup(items, HashKey).value)
            && (r.Ok? ==> r.value == data)
    ensures Lookup(InitData(authToken, unquote), HashKey).None? ==> r.Err?
    ensures r.Err? ==> r.error == InvalidTelegramAuth
    ensures r.Ok? ==> DistinctKeys(r.value) && forall q :: q in r.value ==> q.key != HashKey
  {
    var data := InitData(authToken, unquote);
    var checkHash := Lookup(data, HashKey);
    var rest := RemoveKey(data, HashKey);
    var authData := CheckString(rest);
    var computedHash := hmacHex(authData);
    if checkHash.None? || computedHash != checkHash.value then Err(InvalidTelegramAuth)
    else Ok(rest)
  }
}
