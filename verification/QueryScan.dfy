/** Two readers of a query string: the rule engine's scan for one parameter, which consumes the
    query pair by pair, and the sidecar's map of all parameters. */
module QueryScan {
  import opened Text

  /** The piece before the first '=', or the whole piece. */
  function KeyOf(pair: string): string {
    var i := IndexOf(pair, '=');
    if i < 0 then pair else pair[..i]
  }

  /** The piece after the first '=', None without one. */
  function ValueOf(pair: string): Option<string> {
    var i := IndexOf(pair, '=');
    if i < 0 then None else Some(pair[i + 1..])
  }

  /** The value of the first piece that has '=' and the given key. */
  function FirstValue(pairs: seq<string>, key: string): Option<string> {
    if pairs == [] then None
    else if ValueOf(pairs[0]).Some? && KeyOf(pairs[0]) == key then ValueOf(pairs[0])
    else FirstValue(pairs[1..], key)
  }

  /** The part of a path after the first '?'. */
  function QueryOf(path: string): Option<string> {
    var i := IndexOf(path, '?');
    if i < 0 then None else Some(path[i + 1..])
  }

  /** What a rule's query condition means: the first pair named `param` exists and, if a value is
      required, has it. */
  predicate QueryMatches(path: string, param: string, value: string) {
    match QueryOf(path)
    case None => false
    case Some(query) =>
      match FirstValue(Split(query, '&'), param)
      case None => false
      case Some(v) => value == "" || v == value
  }

  /** The rule engine's loop; `param` is not empty. */
  method MatchQuery(path: string, param: string, value: string) returns (matched: bool)
    requires param != ""
    ensures matched == QueryMatches(path, param, value)
  {
    var queryIdx := IndexOf(path, '?');
    if queryIdx < 0 {
      return false;
    }
    var query := path[queryIdx + 1..];
    ghost var first := FirstValue(Split(query, '&'), param);
    while |query| > 0
      invariant first == FirstValue(Split(query, '&'), param)
      decreases |query|
    {
      SplitFirst(query, '&');
      var pair;
      var idx := IndexOf(query, '&');
      if idx >= 0 {
        pair := query[..idx];
        query := query[idx + 1..];
      } else {
        pair := query;
        query := "";
        EmptyQuery(param);
      }
      var key, val := KeyOf(pair), ValueOf(pair);
      if val.Some? && key == param {
        if value != "" && val.value != value {
          return false;
        }
        return true;
      }
    }
    EmptyQuery(param);
    return false;
  }

  lemma EmptyQuery(param: string)
    ensures FirstValue(Split("", '&'), param) == None
    ensures FirstValue([], param) == None
  {
    assert Split("", '&') == [""];
    assert ValueOf("") == None;
  }

  // ---------------------------------------------------------------- the parameter map

  type Params = map<string, string>

  function AddPair(params: Params, pair: string): Params {
    match ValueOf(pair)
    case Some(v) => params[KeyOf(pair) := v]
    case None => if pair != "" then params[pair := ""] else params
  }

  function PairsMap(pairs: seq<string>): Params {
    if pairs == [] then map[] else AddPair(PairsMap(pairs[..|pairs| - 1]), pairs[|pairs| - 1])
  }

  function ReplacePlus(s: string): (r: string)
    ensures |r| == |s|
  {
    seq(|s|, i requires 0 <= i < |s| => if s[i] == '+' then ' ' else s[i])
  }

  /** `url.QueryUnescape` is not part of the model: `unescape` stands for it, None for its error. */
  function DecodedQuery(query: string, unescape: string -> Option<string>): string {
    ReplacePlus(match unescape(query) case None => query case Some(d) => d)
  }

  function ParamsOf(rawURI: string, unescape: string -> Option<string>): Params {
    match QueryOf(rawURI)
    case None => map[]
    case Some(query) => if query == "" then map[] else PairsMap(Split(DecodedQuery(query, unescape), '&'))
  }

  method ParseQueryParams(rawURI: string, unescape: string -> Option<string>) returns (params: Params)
    ensures params == ParamsOf(rawURI, unescape)
  {
    params := map[];
    var idx := IndexOf(rawURI, '?');
    if idx < 0 || idx == |rawURI| - 1 {
      return;
    }
    var pairs := Split(DecodedQuery(rawURI[idx + 1..], unescape), '&');
    for i := 0 to |pairs|
      invariant params == PairsMap(pairs[..i])
    {
      assert pairs[..i + 1][..i] == pairs[..i];
      var pair := pairs[i];
      if ValueOf(pair).Some? {
        params := params[KeyOf(pair) := ValueOf(pair).value];
      } else if pair != "" {
        params := params[pair := ""];
      }
    }
    assert pairs[..|pairs|] == pairs;
  }

  /** How many pieces are named `key`. */
  function Named(pairs: seq<string>, key: string): nat {
    if pairs == [] then 0
    else Named(pairs[..|pairs| - 1], key) + if KeyOf(pairs[|pairs| - 1]) == key then 1 else 0
  }

  lemma {:induction false} FirstValueAppend(pairs: seq<string>, last: string, key: string)
    ensures FirstValue(pairs + [last], key) ==
            if FirstValue(pairs, key).Some? then FirstValue(pairs, key)
            else if ValueOf(last).Some? && KeyOf(last) == key then ValueOf(last) else None
  {
    if pairs == [] {
      assert (pairs + [last])[1..] == [];
    } else {
      assert (pairs + [last])[1..] == pairs[1..] + [last];
      FirstValueAppend(pairs[1..], last, key);
    }
  }

  /** The last piece named `key`, the one that the parameter map keeps. */
  function LastNamed(pairs: seq<string>, key: string): Option<string> {
    if pairs == [] then None
    else if KeyOf(pairs[|pairs| - 1]) == key then Some(pairs[|pairs| - 1])
    else LastNamed(pairs[..|pairs| - 1], key)
  }

  /** What a piece carries behind its '=': nothing without a piece or without '='. */
  function Carried(piece: Option<string>): string {
    if piece.Some? then OrEmpty(ValueOf(piece.value)) else ""
  }

  lemma {:induction false} MapKeepsLast(pairs: seq<string>, key: string)
    requires key != ""
    ensures key in PairsMap(pairs) <==> LastNamed(pairs, key).Some?
    ensures key in PairsMap(pairs) ==> PairsMap(pairs)[key] == Carried(LastNamed(pairs, key))
  {
    if pairs != [] {
      MapKeepsLast(pairs[..|pairs| - 1], key);
    }
  }

  /** A look-up by the first pair of one list agrees with the map of another on every non-empty value
      exactly when the first pair and the last piece carry the same. */
  lemma LookupsAgreeIff(raw: seq<string>, decoded: seq<string>, key: string)
    requires key != ""
    ensures (forall v :: v != "" ==>
              (FirstValue(raw, key) == Some(v) <==> key in PairsMap(decoded) && PairsMap(decoded)[key] == v))
            <==> OrEmpty(FirstValue(raw, key)) == Carried(LastNamed(decoded, key))
  {
    hide FirstValue, PairsMap, LastNamed, Carried;
    MapKeepsLast(decoded, key);
    var first, last := OrEmpty(FirstValue(raw, key)), Carried(LastNamed(decoded, key));
    assert LastNamed(decoded, key).None? ==> last == "" by { NothingCarried(); }
    if first != last {
      var v := if first != "" then first else last;
      assert v != "" && !(FirstValue(raw, key) == Some(v) <==> key in PairsMap(decoded) && PairsMap(decoded)[key] == v);
    }
  }

  lemma NothingCarried()
    ensures Carried(None) == ""
  {
  }

  function RawPieces(path: string): seq<string> {
    match QueryOf(path)
    case None => []
    case Some(query) => Split(query, '&')
  }

  function DecodedPieces(path: string, unescape: string -> Option<string>): seq<string> {
    match QueryOf(path)
    case None => []
    case Some(query) => if query == "" then [] else Split(DecodedQuery(query, unescape), '&')
  }

  /** The rule matches `param` against every non-empty value exactly as the parameter map would. */
  ghost predicate ReadersAgree(path: string, param: string, unescape: string -> Option<string>) {
    forall value :: value != "" ==>
      (QueryMatches(path, param, value) <==>
       param in ParamsOf(path, unescape) && ParamsOf(path, unescape)[param] == value)
  }

  /** A rule without a required value matches exactly when some piece of the raw query has '=' and the
      rule's key. */
  lemma AnyValueIff(path: string, param: string)
    ensures QueryMatches(path, param, "") <==>
            exists i :: 0 <= i < |RawPieces(path)| && KeyOf(RawPieces(path)[i]) == param &&
                        ValueOf(RawPieces(path)[i]).Some?
  {
    hide Split, KeyOf, ValueOf;
    FirstValueIff(RawPieces(path), param);
  }

  lemma {:induction false} FirstValueIff(pairs: seq<string>, key: string)
    ensures FirstValue(pairs, key).Some? <==>
            exists i :: 0 <= i < |pairs| && KeyOf(pairs[i]) == key && ValueOf(pairs[i]).Some?
  {
    hide KeyOf, ValueOf;
    if pairs != [] {
      var rest := pairs[1..];
      FirstValueIff(rest, key);
      assert forall i :: 0 <= i < |rest| ==> rest[i] == pairs[i + 1];
      if i :| 1 <= i < |pairs| && KeyOf(pairs[i]) == key && ValueOf(pairs[i]).Some? {
        assert rest[i - 1] == pairs[i];
      }
    }
  }

  /** A query that cannot be unescaped is read as it is, but for its plus signs. */
  lemma UnescapableQuery(query: string, unescape: string -> Option<string>, i: nat)
    requires unescape(query) == None && i < |query|
    ensures |DecodedQuery(query, unescape)| == |query|
    ensures DecodedQuery(query, unescape)[i] == if query[i] == '+' then ' ' else query[i]
  {
  }

  /** For every path: the two readers agree exactly when the first pair of the raw query that is named
      `param` and the last piece of the decoded query that is named `param` carry the same. */
  lemma ReadersAgreeIff(path: string, param: string, unescape: string -> Option<string>)
    requires param != ""
    ensures ReadersAgree(path, param, unescape) <==>
            OrEmpty(FirstValue(RawPieces(path), param)) == Carried(LastNamed(DecodedPieces(path, unescape), param))
  {
    hide FirstValue, PairsMap, LastNamed, Carried, Split, DecodedQuery;
    var raw, decoded := RawPieces(path), DecodedPieces(path, unescape);
    LookupsAgreeIff(raw, decoded, param);
    EmptyQuery(param);
    EmptyMap();
    assert forall v :: v != "" ==> (QueryMatches(path, param, v) <==> FirstValue(raw, param) == Some(v));
    assert ParamsOf(path, unescape) == PairsMap(decoded);
  }

  lemma EmptyMap()
    ensures PairsMap([]) == map[]
  {
  }

  lemma {:induction false} OnePieceCarriesTheSame(pairs: seq<string>, key: string)
    requires Named(pairs, key) <= 1
    ensures OrEmpty(FirstValue(pairs, key)) == Carried(LastNamed(pairs, key))
    ensures Named(pairs, key) == 0 ==> FirstValue(pairs, key).None? && LastNamed(pairs, key).None?
  {
    if pairs != [] {
      var front, last := pairs[..|pairs| - 1], pairs[|pairs| - 1];
      OnePieceCarriesTheSame(front, key);
      FirstValueAppend(front, last, key);
      assert front + [last] == pairs;
    }
  }

  lemma NoPlusNoChange(s: string)
    requires '+' !in s
    ensures ReplacePlus(s) == s
  {
  }

  /** In particular they agree on a query without '+' that unescaping leaves alone and in which
      `param` names at most one piece. */
  lemma PlainQueriesAgree(path: string, param: string, unescape: string -> Option<string>)
    requires param != ""
    requires QueryOf(path).Some? ==>
               var query := QueryOf(path).value;
               '+' !in query && unescape(query) == Some(query) && Named(Split(query, '&'), param) <= 1
    ensures ReadersAgree(path, param, unescape)
  {
    hide Split, ReadersAgree, FirstValue, LastNamed, Named;
    ReadersAgreeIff(path, param, unescape);
    EmptyQuery(param);
    if QueryOf(path).Some? {
      var query := QueryOf(path).value;
      NoPlusNoChange(query);
      OnePieceCarriesTheSame(Split(query, '&'), param);
      assert query == "" ==> OrEmpty(FirstValue(RawPieces(path), param)) == "" == Carried(LastNamed([], param))
             by { NoneNamed(param); }
    } else {
      NoneNamed(param);
    }
  }

  lemma NoneNamed(key: string)
    ensures LastNamed([], key) == None && Carried(None) == "" && OrEmpty(None) == ""
  {
  }

  /** An escaped key is seen by the map only. */
  lemma EscapedKeyDiffers(unescape: string -> Option<string>)
    requires unescape("%61=1") == Some("a=1")
    ensures !QueryMatches("/?%61=1", "a", "1")
    ensures "a" in ParamsOf("/?%61=1", unescape) && ParamsOf("/?%61=1", unescape)["a"] == "1"
  {
    hide IndexOf, Split, ReplacePlus;
    var path, raw, decoded := "/?%61=1", "%61=1", "a=1";
    QueryBehind("/", raw);
    assert "/?" + raw == path;
    OnePiece(raw, "%61", "1");
    OnePiece(decoded, "a", "1");
    NoPlusNoChange(decoded);
    assert "%61"[0] != "a"[0];
    assert [decoded][..0] == [];
    assert PairsMap([decoded]) == AddPair(map[], decoded);
    assert FirstValue([raw], "a") == FirstValue([], "a") == None;
  }

  /** A '+' in a value is a plus sign for the rule and a space in the map. */
  lemma PlusDiffers(unescape: string -> Option<string>)
    requires unescape("a=1+2") == Some("a=1 2")
    ensures QueryMatches("/?a=1+2", "a", "1+2")
    ensures "a" in ParamsOf("/?a=1+2", unescape) && ParamsOf("/?a=1+2", unescape)["a"] == "1 2"
  {
    hide IndexOf, Split, ReplacePlus;
    var path, raw, decoded := "/?a=1+2", "a=1+2", "a=1 2";
    QueryBehind("/", raw);
    assert "/?" + raw == path;
    OnePiece(raw, "a", "1+2");
    OnePiece(decoded, "a", "1 2");
    NoPlusNoChange(decoded);
    assert [decoded][..0] == [];
    assert PairsMap([decoded]) == AddPair(map[], decoded);
  }

  lemma QueryBehind(base: string, query: string)
    requires '?' !in base
    ensures QueryOf(base + "?" + query) == Some(query)
  {
    IndexAfter(base, '?', query);
    assert (base + "?" + query)[|base| + 1..] == query;
  }

  lemma OnePiece(pair: string, key: string, value: string)
    requires pair == key + "=" + value && '=' !in key && '&' !in pair
    ensures Split(pair, '&') == [pair] && KeyOf(pair) == key && ValueOf(pair) == Some(value)
  {
    PairParts(key, value);
    SplitOfJoin([pair], '&');
  }

  /** A repeated key with two values: the rule looks at the first pair, the map at the last. */
  lemma RepeatedKeyDiffers(base: string, key: string, v1: string, v2: string, unescape: string -> Option<string>)
    requires '?' !in base && key != "" && v1 != "" && v1 != v2
    requires '=' !in key && '&' !in key && '&' !in v1 && '&' !in v2
    requires var query := key + "=" + v1 + "&" + key + "=" + v2; '+' !in query && unescape(query) == Some(query)
    ensures var path := base + "?" + (key + "=" + v1 + "&" + key + "=" + v2);
            && QueryMatches(path, key, v1)
            && key in ParamsOf(path, unescape) && ParamsOf(path, unescape)[key] == v2
  {
    hide IndexOf, Split, ReplacePlus, KeyOf, ValueOf;
    var p1, p2 := key + "=" + v1, key + "=" + v2;
    var query, pairs := key + "=" + v1 + "&" + key + "=" + v2, [p1, p2];
    QueryBehind(base, query);
    assert pairs[1..] == [p2];
    assert query == p1 + "&" + p2;
    SplitOfJoin(pairs, '&');
    PairParts(key, v1);
    PairParts(key, v2);
    NoPlusNoChange(query);
    assert pairs[..1] == [p1] && [p1][..0] == [];
    assert PairsMap([p1]) == AddPair(map[], p1);
    assert PairsMap(pairs) == AddPair(PairsMap([p1]), p2);
  }

  lemma PairParts(key: string, value: string)
    requires '=' !in key
    ensures KeyOf(key + "=" + value) == key && ValueOf(key + "=" + value) == Some(value)
  {
    IndexAfter(key, '=', value);
    assert (key + "=" + value)[|key| + 1..] == value;
  }

  /** A piece without '=' is all key. */
  lemma BarePart(pair: string)
    requires '=' !in pair
    ensures KeyOf(pair) == pair && ValueOf(pair) == None
  {
  }
}
