/**
 * `SearchService.search_npu` (crawler_jus/services/search_service.py): clean and validate the
 * number, try the cache, fetch the case data and its movements, let the first failed fetch
 * decide the error, extract and merge the two answers, and store the result. The cache and
 * the two fetches are oracles: their outcomes are parameters, and the method reports, in
 * order, the effects it asks of them.
 */
module SearchService {

  import opened Wrappers
  import opened Text
  import opened Util
  import opened Json
  import opened Crawler

  /** The four typed upstream errors the service lets through unchanged. */
  datatype TjrsError = Unauthorized | RateLimit | UpstreamError | NetworkError

  /** An exception a fetch can end with. */
  datatype Raised =
    | HttpExc(status: int)
    | Tjrs(kind: TjrsError)
    | OtherExc

  /** What `asyncio.gather(..., return_exceptions=True)` hands back for one fetch: the answer,
      parsed (None when `json.loads` rejects it), or the exception. */
  datatype Fetched = Answer(doc: Option<Json>) | Failed(exc: Raised)

  /** What the cache read gives: the stored value (null on a miss) or an exception. */
  datatype CacheRead = Stored(value: Json) | ReadError

  /** How a search ends when it does not return a result. */
  datatype Failure =
    | HttpError(status: int)
    | TjrsFailure(kind: TjrsError)
    | Unhandled // the ValueError `valida_npu` lets escape

  datatype Reply = Found(result: Json) | Refused(failure: Failure)

  /** A request made of the cache or the portal, in the order the service makes them. */
  datatype Effect = CacheGet(key: string) | Fetch(url: string) | CacheSet(key: string, value: Json)

  // ------------------------------------------------------------ pure steps

  /** `f"tjrs:{comarca}:{npu}"`. */
  function CacheKey(npu: string): string
    requires IsNumeral(Tail(npu, 4))
  {
    "tjrs:" + ExtractComarca(npu) + ":" + npu
  }

  /** The status the service answers for one failed fetch: HTTP errors and the four typed
      errors propagate, anything else becomes a 500. */
  function Classify(e: Raised): (f: Failure)
    ensures e.HttpExc? ==> f == HttpError(e.status)
    ensures e.Tjrs? ==> f == TjrsFailure(e.kind)
    ensures e.OtherExc? ==> f == HttpError(500)
  {
    match e
    case HttpExc(status) => HttpError(status)
    case Tjrs(kind) => TjrsFailure(kind)
    case OtherExc => HttpError(500)
  }

  /** The loop over the fetch outcomes: the first failed one, in order, decides. */
  function FirstFailure(responses: seq<Fetched>): (r: Option<Failure>)
    ensures r.None? <==> forall i :: 0 <= i < |responses| ==> responses[i].Answer?
    ensures r.Some? ==>
              exists i :: && 0 <= i < |responses| && responses[i].Failed?
                          && r.value == Classify(responses[i].exc)
                          && forall j :: 0 <= j < i ==> responses[j].Answer?
  {
    if responses == [] then None
    else if responses[0].Failed? then Some(Classify(responses[0].exc))
    else
      var r := FirstFailure(responses[1..]);
      assert forall i :: 0 < i < |responses| ==> responses[i] == responses[1..][i - 1];
      r
  }

  /** `{**fields, key: value}`: an existing key keeps its place and takes the new value, a new
      key goes last. */
  function Merge(fields: seq<(string, Json)>, key: string, value: Json): (r: seq<(string, Json)>)
    ensures Lookup(r, key) == Some(value)
    ensures forall k :: k != key ==> Lookup(r, k) == Lookup(fields, k)
    ensures |r| == if Lookup(fields, key).None? then |fields| + 1 else |fields|
  {
    if fields == [] then [(key, value)]
    else if fields[0].0 == key then [(key, value)] + fields[1..]
    else [fields[0]] + Merge(fields[1..], key, value)
  }

  /** Both extractors on the two answers; any failure of either is a 502. */
  function Assemble(basicDoc: Option<Json>, movDoc: Option<Json>): (r: Result<Json, Failure>)
    ensures r.Err? ==> r.error == HttpError(502)
    ensures r.Ok? <==> && basicDoc.Some? && movDoc.Some?
                       && ExtractBasicData(basicDoc.value).Ok? && ExtractMovimentos(movDoc.value).Ok?
    ensures r.Ok? ==> r.value.Obj? && Truthy(r.value)
    ensures r.Ok? ==> Lookup(r.value.fields, "movimentos") == Some(Arr(ExtractMovimentos(movDoc.value).value))
    ensures r.Ok? ==> forall k :: k != "movimentos" ==>
              Lookup(r.value.fields, k) == Lookup(ExtractBasicData(basicDoc.value).value.fields, k)
  {
    if basicDoc.None? then Err(HttpError(502))
    else
      match ExtractBasicData(basicDoc.value)
      case Err(_) => Err(HttpError(502))
      case Ok(basic) =>
        if movDoc.None? then Err(HttpError(502))
        else
          match ExtractMovimentos(movDoc.value)
          case Err(_) => Err(HttpError(502))
          case Ok(movimentos) => Ok(Obj(Merge(basic.fields, "movimentos", Arr(movimentos))))
  }

  // ---------------------------------------------------------------- the service

  /** A cache answer the service returns as it is: `if cached:`. */
  predicate IsHit(cached: CacheRead)
  {
    cached.Stored? && Truthy(cached.value)
  }

  /** The cleaned number passed `valida_npu`. */
  predicate Accepted(npuOriginal: string)
  {
    ValidaNpu(RemoveSpecialCharacters(npuOriginal)) == Some(true)
  }

  /** `search_npu(npu_original)`, with the cache read and the two fetches supplied as their
      outcomes. The cache write's outcome is not a parameter: the service swallows its
      failure, so the reply is the same either way. */
  method SearchNpu(npuOriginal: string, cached: CacheRead, basicFetch: Fetched, movFetch: Fetched)
    returns (reply: Reply, effects: seq<Effect>)
    // an invalid number is refused before the cache or the portal is asked anything
    ensures ValidaNpu(RemoveSpecialCharacters(npuOriginal)).None? ==>
              reply == Refused(Unhandled) && effects == []
    ensures ValidaNpu(RemoveSpecialCharacters(npuOriginal)) == Some(false) ==>
              reply == Refused(HttpError(400)) && effects == []
    // a valid number is looked up in the cache first, under its key
    ensures Accepted(npuOriginal) ==>
              var npu := RemoveSpecialCharacters(npuOriginal);
              && IsNumeral(Tail(npu, 4))
              && |effects| > 0 && effects[0] == CacheGet(CacheKey(npu))
    ensures Accepted(npuOriginal) && IsHit(cached) ==>
              reply == Found(cached.value) && |effects| == 1
    // on a miss both pages are fetched
    ensures Accepted(npuOriginal) && !IsHit(cached) ==>
              var npu := RemoveSpecialCharacters(npuOriginal);
              && IsNumeral(Tail(npu, 4))
              && |effects| >= 3
              && effects[1] == Fetch(BuildUrlProcesso(npu, ExtractComarca(npu)))
              && effects[2] == Fetch(BuildUrlMovimento(npu, ExtractComarca(npu)))
    // the first failed fetch decides
    ensures Accepted(npuOriginal) && !IsHit(cached) && basicFetch.Failed? ==>
              reply == Refused(Classify(basicFetch.exc)) && |effects| == 3
    ensures Accepted(npuOriginal) && !IsHit(cached) && basicFetch.Answer? && movFetch.Failed? ==>
              reply == Refused(Classify(movFetch.exc)) && |effects| == 3
    // both answered: a failed extraction is a 502, otherwise the merged result is stored
    ensures Accepted(npuOriginal) && !IsHit(cached) && basicFetch.Answer? && movFetch.Answer? ==>
              match Assemble(basicFetch.doc, movFetch.doc)
              case Err(f) => reply == Refused(f) && |effects| == 3
              case Ok(result) =>
                && reply == Found(result) && |effects| == 4
                && effects[3] == CacheSet(CacheKey(RemoveSpecialCharacters(npuOriginal)), result)
    ensures reply.Found? ==> Truthy(reply.result)
  {
    // 1) clean and validate
    var npu := RemoveSpecialCharacters(npuOriginal);
    var valid := ValidaNpu(npu);
    if valid.None? {
      return Refused(Unhandled), [];
    }
    if !valid.value {
      return Refused(HttpError(400)), [];
    }

    // 2) context
    ValidNpuIsDigits(npu);
    var comarca := ExtractComarca(npu);
    var key := CacheKey(npu);

    // 3) cache
    effects := [CacheGet(key)];
    var hit := if cached.Stored? then cached.value else Null;
    if Truthy(hit) {
      return Found(hit), effects;
    }
    var urlConsult := BuildUrlProcesso(npu, comarca);
    var urlMovimentos := BuildUrlMovimento(npu, comarca);

    // 4) the two fetches, then the first failure in order
    effects := effects + [Fetch(urlConsult), Fetch(urlMovimentos)];
    var failure := FirstFailure([basicFetch, movFetch]);
    assert [basicFetch, movFetch][0] == basicFetch && [basicFetch, movFetch][1] == movFetch;
    if failure.Some? {
      return Refused(failure.value), effects;
    }

    // 5) extract and merge
    var assembled := Assemble(basicFetch.doc, movFetch.doc);
    if assembled.Err? {
      return Refused(assembled.error), effects;
    }
    var results := assembled.value;

    // 6) store; a failed write is ignored
    effects := effects + [CacheSet(key, results)];
    reply := Found(results);
  }

  // -------------------------------------------------------------------- lemmas

  /** A number that passes `valida_npu` and holds no `.` or `-` is all digits and at least
      eight long, so `extract_comarca` can read its last four characters. */
  lemma ValidNpuIsDigits(npu: string)
    requires forall i :: 0 <= i < |npu| ==> !IsSpecial(npu[i])
    requires ValidaNpu(npu) == Some(true)
    ensures IsNumeral(npu) && |npu| >= 8
    ensures IsNumeral(Tail(npu, 4))
  {
    WithoutNone(npu, IsNpuPunctuation);
    var body, pair := NpuBody(npu), NpuCheckPair(npu);
    assert |npu| >= 8;
    forall i | 0 <= i < |npu|
      ensures IsDigit(npu[i])
    {
      if i < 7 {
        assert npu[i] == body[i];
      } else if i < 9 {
        assert npu[i] == pair[i - 7];
      } else {
        assert npu[i] == body[i - 2];
      }
    }
    var t := Tail(npu, 4);
    assert forall i :: 0 <= i < |t| ==> t[i] == npu[|npu| - 4 + i];
  }

  /** Different numbers never share a cache entry: the key's district code holds no `:`, so
      the number is everything after the second `:`. */
  lemma CacheKeyInjective(a: string, b: string)
    requires IsNumeral(Tail(a, 4)) && IsNumeral(Tail(b, 4))
    requires CacheKey(a) == CacheKey(b)
    ensures a == b
  {
    var ca, cb := ExtractComarca(a), ExtractComarca(b);
    var s, t := CacheKey(a), CacheKey(b);
    assert forall k :: 0 <= k < |ca| ==> s[5 + k] == ca[k] && IsDigit(ca[k]);
    assert forall k :: 0 <= k < |cb| ==> t[5 + k] == cb[k] && IsDigit(cb[k]);
    assert s[5 + |ca|] == ':' && t[5 + |cb|] == ':';
    assert |ca| == |cb|;
    assert a == s[6 + |ca|..];
    assert b == t[6 + |cb|..];
  }

  /** The merged result always holds `movimentos`, so it is never empty and the 404 branch
      cannot be taken. */
  lemma MergedNeverEmpty(fields: seq<(string, Json)>, movimentos: seq<Json>)
    ensures Truthy(Obj(Merge(fields, "movimentos", Arr(movimentos))))
  {
  }
}
