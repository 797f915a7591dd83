/**
 * The computations of the TJRS crawler (crawler_jus/crawler.py) that do not talk to the
 * network: the proof-of-work search of the anonymous login, the obfuscated credential built
 * from the user name the portal hands out, the `altcha` token submitted with the solution,
 * and the two extractors that reduce the portal's JSON answers to the fields the service
 * returns. SHA-256 is a parameter `sha` standing for `hashlib.sha256(x.encode()).hexdigest()`.
 */
module Crawler {

  import opened Wrappers
  import opened Text
  import opened Base64
  import opened Json
  import opened JsonText

  // ------------------------------------------------------------ proof of work

  /** `salt + str(i)`: the text whose digest is compared with the challenge. */
  function Attempt(salt: string, i: nat): string
  {
    salt + Decimal(i)
  }

  predicate Solves(sha: string -> string, salt: string, challenge: string, i: nat)
  {
    sha(Attempt(salt, i)) == challenge
  }

  /** The first candidate in [from, maxnumber] whose digest is the challenge. */
  function FirstSolution(sha: string -> string, salt: string, challenge: string, from: nat, maxnumber: int): (r: Option<nat>)
    ensures r.Some? ==> from <= r.value <= maxnumber && Solves(sha, salt, challenge, r.value)
    ensures r.Some? ==> forall j :: from <= j < r.value ==> !Solves(sha, salt, challenge, j)
    ensures r.None? <==> forall j :: from <= j <= maxnumber ==> !Solves(sha, salt, challenge, j)
    decreases if from <= maxnumber then maxnumber + 1 - from else 0
  {
    if from > maxnumber then None
    else if Solves(sha, salt, challenge, from) then Some(from)
    else FirstSolution(sha, salt, challenge, from + 1, maxnumber)
  }

  /** `solve_challenge`: tries 0, 1, ..., maxnumber in turn and returns the first candidate
      whose digest is the challenge, or None when there is none (always when maxnumber < 0). */
  method SolveChallenge(sha: string -> string, salt: string, challenge: string, maxnumber: int) returns (r: Option<nat>)
    ensures r == FirstSolution(sha, salt, challenge, 0, maxnumber)
    ensures r.Some? ==> r.value <= maxnumber && sha(salt + Decimal(r.value)) == challenge
    ensures r.Some? ==> forall j :: 0 <= j < r.value ==> !Solves(sha, salt, challenge, j)
    ensures r.None? <==> forall j :: 0 <= j <= maxnumber ==> !Solves(sha, salt, challenge, j)
  {
    var i: nat := 0;
    while i <= maxnumber
      invariant maxnumber >= 0 ==> i <= maxnumber + 1
      invariant FirstSolution(sha, salt, challenge, i, maxnumber) == FirstSolution(sha, salt, challenge, 0, maxnumber)
      decreases maxnumber - i
    {
      var attempt := salt + Decimal(i);
      var result := sha(attempt);
      if result == challenge {
        return Some(i);
      }
      i := i + 1;
    }
    return None;
  }

  /** A challenge made from candidate n is solved within any bound m >= n, by n itself or by
      a smaller candidate with the same digest. */
  lemma SolvesPlanted(sha: string -> string, salt: string, n: nat, m: int)
    requires n <= m
    ensures var r := FirstSolution(sha, salt, sha(Attempt(salt, n)), 0, m);
            r.Some? && r.value <= n && sha(Attempt(salt, r.value)) == sha(Attempt(salt, n))
    ensures (forall j :: 0 <= j < n ==> sha(Attempt(salt, j)) != sha(Attempt(salt, n))) ==>
              FirstSolution(sha, salt, sha(Attempt(salt, n)), 0, m) == Some(n)
  {
    var challenge := sha(Attempt(salt, n));
    assert Solves(sha, salt, challenge, n);
  }

  // ------------------------------------------------------------- obfuscation

  const AnonPrefix := "ChaAnon_"

  /** `int(auth.replace("ChaAnon_", ""))`, None for the ValueError. */
  function AuthId(auth: string): Option<int>
  {
    ParseInt(RemoveAll(auth, AnonPrefix))
  }

  /** `(id_num % 60029) + 90767`; Python's `%` by a positive modulus is never negative. */
  function Factor(id: int): (n: int)
    ensures 90767 <= n <= 150795
  {
    id % 60029 + 90767
  }

  /** `f"@{n}@{me}!"` with `me = id_num * n`: the text that is hashed. */
  function HashInput(id: int): string
  {
    "@" + IntDecimal(Factor(id)) + "@" + IntDecimal(id * Factor(id)) + "!"
  }

  predicate IsHexDigest(d: string)
  {
    |d| == 64 && forall i :: 0 <= i < 64 ==> '0' <= d[i] <= '9' || 'a' <= d[i] <= 'f'
  }

  /** What `hexdigest()` promises: 64 lowercase hexadecimal digits. */
  ghost predicate HexDigester(sha: string -> string)
  {
    forall x :: IsHexDigest(sha(x))
  }

  /** The text that is base64-encoded: the user name as received, `:`, and the digest. */
  function Credential(auth: string, id: int, sha: string -> string): string
  {
    auth + ":" + sha(HashInput(id))
  }

  /** `obfuscate(auth)`: base64 of the credential, None when the user name without its
      `ChaAnon_` markers is not an integer. */
  function Obfuscate(auth: string, sha: string -> string): (r: Option<string>)
    requires HexDigester(sha)
    ensures r.None? <==> AuthId(auth).None?
  {
    match AuthId(auth)
    case None => None
    case Some(id) =>
      CredentialAscii(auth, id, sha);
      Some(Encode(AsciiBytes(Credential(auth, id, sha))))
  }

  // ------------------------------------------------------- obfuscation lemmas

  /** Decoding the obfuscated value gives back the user name, still carrying its prefix, a
      colon, and the 64-digit digest of the hashed text. */
  lemma ObfuscateDecodes(auth: string, sha: string -> string)
    requires HexDigester(sha)
    requires AuthId(auth).Some?
    ensures var t := DecodeAscii(Obfuscate(auth, sha).value);
            && t == Some(auth + ":" + sha(HashInput(AuthId(auth).value)))
            && t.value[..|auth|] == auth && t.value[|auth|] == ':'
            && IsHexDigest(t.value[|auth| + 1..])
  {
    var id := AuthId(auth).value;
    CredentialAscii(auth, id, sha);
    DecodeAsciiEncode(Credential(auth, id, sha));
    var t := Credential(auth, id, sha);
    assert t[..|auth|] == auth;
    assert t[|auth| + 1..] == sha(HashInput(id));
  }

  lemma CredentialAscii(auth: string, id: int, sha: string -> string)
    requires HexDigester(sha)
    requires AuthId(auth) == Some(id)
    ensures IsAscii(Credential(auth, id, sha))
  {
    AuthAscii(auth);
    var d := sha(HashInput(id));
    assert IsHexDigest(d);
    AsciiAppend(auth, ":");
    AsciiAppend(auth + ":", d);
  }

  lemma AsciiAppend(a: string, b: string)
    requires IsAscii(a) && IsAscii(b)
    ensures IsAscii(a + b)
  {
    assert forall i :: |a| <= i < |a + b| ==> (a + b)[i] == b[i - |a|];
  }

  /** A user name whose id parses is ASCII: each character is either kept by the marker
      removal, and so a sign or a digit, or part of a removed marker. */
  lemma AuthAscii(auth: string)
    requires AuthId(auth).Some?
    ensures IsAscii(auth)
  {
    var rest := RemoveAll(auth, AnonPrefix);
    RemoveAllCovers(auth, AnonPrefix);
    assert forall c :: c in rest ==> c as int < 128 by {
      forall c | c in rest
        ensures c as int < 128
      {
        var i :| 0 <= i < |rest| && rest[i] == c;
        if i > 0 || IsNumeral(rest) {
          assert IsDigit(rest[i]);
        }
      }
    }
    assert forall c :: c in AnonPrefix ==> c as int < 128;
  }

  /** Every character of s is kept by `s.replace(pat, "")` or belongs to pat. */
  lemma {:induction false} RemoveAllCovers(s: string, pat: string)
    requires pat != []
    ensures forall i :: 0 <= i < |s| ==> s[i] in RemoveAll(s, pat) || s[i] in pat
    decreases |s|
  {
    if s == [] {
    } else if |pat| <= |s| && s[..|pat|] == pat {
      RemoveAllCovers(s[|pat|..], pat);
      forall i | 0 <= i < |s|
        ensures s[i] in RemoveAll(s, pat) || s[i] in pat
      {
        if i < |pat| {
          assert s[i] == pat[i];
        } else {
          assert s[i] == s[|pat|..][i - |pat|];
        }
      }
    } else {
      RemoveAllCovers(s[1..], pat);
      forall i | 0 <= i < |s|
        ensures s[i] in RemoveAll(s, pat) || s[i] in pat
      {
        if i > 0 {
          assert s[i] == s[1..][i - 1];
        }
      }
    }
  }

  /** Distinct ids give distinct hashed texts: the text determines n, then `me`, then the
      id, since n is never 0. */
  lemma HashInputInjective(a: int, b: int)
    requires HashInput(a) == HashInput(b)
    ensures a == b
  {
    var na, nb := Factor(a), Factor(b);
    var xa, xb := IntDecimal(na), IntDecimal(nb);
    var ya, yb := IntDecimal(a * na), IntDecimal(b * nb);
    NoAt(na);
    NoAt(nb);
    SplitAtSecond(xa, ya, xb, yb);
    IntDecimalInjective(na, nb);
    IntDecimalInjective(a * na, b * nb);
    assert a * na == b * na;
    CancelFactor(a, b, na);
  }

  lemma CancelFactor(a: int, b: int, n: int)
    requires n > 0 && a * n == b * n
    ensures a == b
  {
    assert (a - b) * n == 0;
  }

  /** A decimal holds no `@`. */
  lemma NoAt(i: int)
    ensures '@' !in IntDecimal(i)
  {
    var d := if i >= 0 then Decimal(i) else Decimal(-i);
    assert forall k :: 0 <= k < |d| ==> IsDigit(d[k]);
  }

  lemma SplitAtSecond(xa: string, ya: string, xb: string, yb: string)
    requires '@' !in xa && '@' !in xb
    requires "@" + xa + "@" + ya + "!" == "@" + xb + "@" + yb + "!"
    ensures xa == xb && ya == yb
  {
    var s := "@" + xa + "@" + ya + "!";
    var t := "@" + xb + "@" + yb + "!";
    assert forall k :: 0 <= k < |xa| ==> s[1 + k] == xa[k];
    assert forall k :: 0 <= k < |xb| ==> t[1 + k] == xb[k];
    assert s[1 + |xa|] == '@' && t[1 + |xb|] == '@';
    assert |xa| == |xb|;
    assert xa == s[1..1 + |xa|];
    assert xb == t[1..1 + |xb|];
    assert ya == s[2 + |xa|..|s| - 1];
    assert yb == t[2 + |xb|..|t| - 1];
  }

  /** `str(i)` starts with a minus sign exactly when i is negative. */
  lemma DecimalSign(i: int)
    ensures IntDecimal(i) != [] && (IntDecimal(i)[0] == '-' <==> i < 0)
  {
    var d := if i >= 0 then Decimal(i) else Decimal(-i);
    assert IsDigit(d[0]);
  }

  /** `str` is injective on integers. */
  lemma IntDecimalInjective(a: int, b: int)
    requires IntDecimal(a) == IntDecimal(b)
    ensures a == b
  {
    DecimalSign(a);
    DecimalSign(b);
    if a >= 0 {
      assert Value(Decimal(a)) == Value(Decimal(b));
    } else {
      assert Decimal(-a) == IntDecimal(a)[1..];
      assert Decimal(-b) == IntDecimal(b)[1..];
      assert Value(Decimal(-a)) == Value(Decimal(-b));
    }
  }

  // ------------------------------------------------------------- altcha token

  /** The solver's answer as JSON: `None` is written as `null`. */
  function NumberJson(number: Option<nat>): (v: Json)
    ensures number.None? <==> v == Null
    ensures number.Some? ==> v == Num(number.value)
  {
    if number.None? then Null else Num(number.value)
  }

  /** The payload dict, its keys in the order they are written. */
  function AltchaPayload(algorithm: Json, challenge: Json, number: Option<nat>, salt: Json, signature: Json): (p: Json)
    ensures p.Obj? && Keys(p.fields) == [Str("algorithm"), Str("challenge"), Str("number"), Str("salt"), Str("signature")]
    ensures p.fields[2].1 == NumberJson(number)
  {
    Obj([("algorithm", algorithm), ("challenge", challenge), ("number", NumberJson(number)),
         ("salt", salt), ("signature", signature)])
  }

  /** The text of the payload: the five members in their order, separated by bare commas,
      with the solver's answer or `null` in third place; `MemberPlain` reads each member as
      `"key":value`. */
  lemma AltchaText(algorithm: Json, challenge: Json, number: Option<nat>, salt: Json, signature: Json)
    ensures Serialize(AltchaPayload(algorithm, challenge, number, salt, signature))
         == "{" + Member("algorithm", algorithm) + "," + Member("challenge", challenge) + ","
                + Member("number", NumberJson(number)) + "," + Member("salt", salt) + ","
                + Member("signature", signature) + "}"
  {
    var p := AltchaPayload(algorithm, challenge, number, salt, signature);
    FiveFields(p.fields);
  }

  /** `base64.b64encode(json.dumps(payload, separators=(',', ':')).encode()).decode()`. */
  function Token(payload: Json): string
  {
    var text := Serialize(payload);
    SerializePrintable(payload);
    PrintableAscii(text);
    Encode(AsciiBytes(text))
  }

  /** The `altcha` form value submitted with the solution. */
  function AltchaToken(algorithm: Json, challenge: Json, number: Option<nat>, salt: Json, signature: Json): string
  {
    Token(AltchaPayload(algorithm, challenge, number, salt, signature))
  }

  /** How the portal reads a token: base64, then the JSON text. */
  function ReadToken(token: string): Option<Json>
  {
    match DecodeAscii(token)
    case None => None
    case Some(text) => Parse(text)
  }

  /** A token carries exactly its payload. */
  lemma TokenRoundTrip(payload: Json)
    ensures ReadToken(Token(payload)) == Some(payload)
  {
    var text := Serialize(payload);
    SerializePrintable(payload);
    PrintableAscii(text);
    DecodeAsciiEncode(text);
    ParseSerialize(payload);
  }

  /** Reading the `altcha` token back gives the five members, in order, with the solver's
      answer or `null`. */
  lemma AltchaTokenRoundTrip(algorithm: Json, challenge: Json, number: Option<nat>, salt: Json, signature: Json)
    ensures ReadToken(AltchaToken(algorithm, challenge, number, salt, signature))
         == Some(AltchaPayload(algorithm, challenge, number, salt, signature))
  {
    TokenRoundTrip(AltchaPayload(algorithm, challenge, number, salt, signature));
  }

  lemma PrintableAscii(text: string)
    requires Printable(text)
    ensures IsAscii(text)
  {
  }

  // --------------------------------------------------------------- extractors

  /** `{k: item.get(k) for k in keys}` written out as a dict display: each key with the
      item's value for it, None when missing. */
  function Project(item: Json, keys: seq<string>): (r: Result<Json, PyExc>)
    ensures keys != [] ==> (r.Err? <==> !item.Obj?)
    ensures r.Err? ==> r.error == AttributeError
    ensures r.Ok? ==> r.value.Obj? && |r.value.fields| == |keys|
    ensures r.Ok? ==> forall i :: 0 <= i < |keys| ==>
              r.value.fields[i].0 == keys[i] && Get(item, keys[i]) == Ok(r.value.fields[i].1)
  {
    if keys == [] then Ok(Obj([]))
    else
      match Get(item, keys[0])
      case Err(e) => Err(e)
      case Ok(v) =>
        match Project(item, keys[1..])
        case Err(e) => Err(e)
        case Ok(rest) => Ok(Obj([(keys[0], v)] + rest.fields))
  }

  /** `[{k: x.get(k) for k in keys} for x in items]`: the first item without `get` raises. */
  function ProjectAll(items: seq<Json>, keys: seq<string>): (r: Result<seq<Json>, PyExc>)
    ensures r.Ok? ==> |r.value| == |items|
    ensures r.Ok? ==> forall i :: 0 <= i < |items| ==> Project(items[i], keys) == Ok(r.value[i])
    ensures r.Err? <==> exists i :: 0 <= i < |items| && Project(items[i], keys).Err?
  {
    if items == [] then Ok([])
    else
      match Project(items[0], keys)
      case Err(e) => Err(e)
      case Ok(x) =>
        match ProjectAll(items[1..], keys)
        case Err(e) => Err(e)
        case Ok(xs) =>
          assert forall i :: 0 < i < |items| ==> items[i] == items[1..][i - 1];
          Ok([x] + xs)
  }

  const BasicKeys: seq<string> := ["nomeClasse", "nomeNatureza", "classeCNJ", "assuntoCNJ"]
  const ParteKeys: seq<string> := ["descricaoTipo", "nome"]
  const MovimentoKeys: seq<string> := ["data", "descricao"]
  const EmptyRecord := Obj([])

  /** A value a comprehension over `x.get(...)` can run over: iterating it gives only dicts.
      That is a list of dicts, or an empty string or dict; a non-empty string or dict yields
      strings, and None, booleans and numbers cannot be iterated. */
  predicate AllRecords(v: Json)
  {
    || (v.Arr? && forall i :: 0 <= i < |v.items| ==> v.items[i].Obj?)
    || ((v.Str? || v.Obj?) && !Truthy(v))
  }

  /** `(data_dict.get("data") or [{}])[0]`: the first record, or an empty one when `data` is
      missing, null or empty. */
  function Basic(doc: Json): (r: Result<Json, PyExc>)
    ensures !doc.Obj? ==> r == Err(AttributeError)
    ensures doc.Obj? && !Truthy(Get(doc, "data").value) ==> r == Ok(EmptyRecord)
    ensures doc.Obj? && Get(doc, "data").value.Arr? && Truthy(Get(doc, "data").value) ==>
              r == Ok(Get(doc, "data").value.items[0])
    ensures r.Ok? <==> doc.Obj? && (!Truthy(Get(doc, "data").value) || Get(doc, "data").value.Arr? || Get(doc, "data").value.Str?)
  {
    match Get(doc, "data")
    case Err(e) => Err(e)
    case Ok(data) => First(Or(data, Arr([EmptyRecord])))
  }

  /** `basic.get("partes", {}).get("parte", [])`, iterated and reduced to the two fields of a
      party. */
  function Partes(basic: Json): (r: Result<seq<Json>, PyExc>)
    ensures !basic.Obj? ==> r == Err(AttributeError)
    ensures basic.Obj? && !GetOr(basic, "partes", Obj([])).value.Obj? ==> r == Err(AttributeError)
    ensures r.Ok? <==>
              && basic.Obj? && GetOr(basic, "partes", Obj([])).value.Obj?
              && AllRecords(GetOr(GetOr(basic, "partes", Obj([])).value, "parte", Arr([])).value)
  {
    match GetOr(basic, "partes", Obj([]))
    case Err(e) => Err(e)
    case Ok(partes) =>
      match GetOr(partes, "parte", Arr([]))
      case Err(e) => Err(e)
      case Ok(parte) =>
        match Iterate(parte)
        case Err(e) => Err(e)
        case Ok(items) => ProjectAll(items, ParteKeys)
  }

  /** `extract_basic_data` on the parsed answer: the four descriptive fields of the first
      record and its parties. */
  function ExtractBasicData(doc: Json): (r: Result<Json, PyExc>)
    ensures r.Ok? ==> Basic(doc).Ok? && Partes(Basic(doc).value).Ok?
    ensures r.Ok? ==> r.value.Obj? && |r.value.fields| == 5
    ensures r.Ok? ==> forall i :: 0 <= i < 4 ==>
              r.value.fields[i].0 == BasicKeys[i] && Get(Basic(doc).value, BasicKeys[i]) == Ok(r.value.fields[i].1)
    ensures r.Ok? ==> r.value.fields[4] == ("partes", Arr(Partes(Basic(doc).value).value))
    ensures r.Err? <==> Basic(doc).Err? || Partes(Basic(doc).value).Err?
  {
    match Basic(doc)
    case Err(e) => Err(e)
    case Ok(basic) =>
      match Partes(basic)
      case Err(e) => Err(e)
      case Ok(partes) =>
        var record := Project(basic, BasicKeys);
        Ok(Obj(record.value.fields + [("partes", Arr(partes))]))
  }

  /** `extract_movimentos` on the parsed answer: each movement of `data` reduced to its date
      and description. */
  function ExtractMovimentos(doc: Json): (r: Result<seq<Json>, PyExc>)
    ensures !doc.Obj? ==> r == Err(AttributeError)
    ensures doc.Obj? && !Truthy(Get(doc, "data").value) ==> r == Ok([])
    ensures r.Ok? <==> doc.Obj? && (!Truthy(Get(doc, "data").value) || AllRecords(Get(doc, "data").value))
  {
    match Get(doc, "data")
    case Err(e) => Err(e)
    case Ok(data) =>
      match Iterate(Or(data, Arr([])))
      case Err(e) => Err(e)
      case Ok(movimentos) => ProjectAll(movimentos, MovimentoKeys)
  }

  // ------------------------------------------------------- extractor lemmas

  /** When `data` is missing, null or empty every field is None and there are no parties. */
  lemma BasicDataFallback(doc: Json)
    requires doc.Obj? && !Truthy(Get(doc, "data").value)
    ensures ExtractBasicData(doc) == Ok(Obj([("nomeClasse", Null), ("nomeNatureza", Null),
              ("classeCNJ", Null), ("assuntoCNJ", Null), ("partes", Arr([]))]))
  {
    assert Basic(doc) == Ok(EmptyRecord);
    assert Partes(EmptyRecord) == Ok([]);
    var rec := Project(EmptyRecord, BasicKeys).value.fields;
    assert forall i :: 0 <= i < 4 ==> rec[i] == (BasicKeys[i], Null);
    assert rec == [(BasicKeys[0], Null), (BasicKeys[1], Null), (BasicKeys[2], Null), (BasicKeys[3], Null)];
    assert ExtractBasicData(doc) == Ok(Obj(rec + [("partes", Arr([]))]));
    assert BasicKeys[0] == "nomeClasse" && BasicKeys[1] == "nomeNatureza";
    assert BasicKeys[2] == "classeCNJ" && BasicKeys[3] == "assuntoCNJ";
    var expected: seq<(string, Json)> := [("nomeClasse", Null), ("nomeNatureza", Null),
              ("classeCNJ", Null), ("assuntoCNJ", Null), ("partes", Arr([]))];
    assert rec + [("partes", Arr([]))] == expected;
  }

  /** The parties come out in the order and number of `partes.parte` in the first record,
      each reduced to its type and name. */
  lemma BasicDataPartes(doc: Json, parte: seq<Json>)
    requires ExtractBasicData(doc).Ok?
    requires Basic(doc).value.Obj?
    requires GetOr(Basic(doc).value, "partes", Obj([])).value.Obj?
    requires GetOr(GetOr(Basic(doc).value, "partes", Obj([])).value, "parte", Arr([])) == Ok(Arr(parte))
    ensures var partes := ExtractBasicData(doc).value.fields[4].1.items;
            |partes| == |parte| &&
            forall i :: 0 <= i < |parte| ==> Project(parte[i], ParteKeys) == Ok(partes[i])
  {
  }

  /** The movements come out in the order and number of a `data` list. */
  lemma MovimentosPreserveOrder(doc: Json, data: seq<Json>)
    requires Get(doc, "data") == Ok(Arr(data))
    requires ExtractMovimentos(doc).Ok?
    ensures var ms := ExtractMovimentos(doc).value;
            |ms| == |data| && forall i :: 0 <= i < |data| ==> Project(data[i], MovimentoKeys) == Ok(ms[i])
  {
  }

  /** Each movement keeps exactly `data` and `descricao`, in that order. */
  lemma MovimentoFields(m: Json)
    requires Project(m, MovimentoKeys).Ok?
    ensures var f := Project(m, MovimentoKeys).value.fields;
            |f| == 2 && f[0].0 == "data" && f[1].0 == "descricao"
  {
  }
}
