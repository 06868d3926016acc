/** HTTP signatures: the string that is signed, and the header that carries the signature. */
module HttpSignature {
  import opened Base

  // ---------------------------------------------------------------- splitting and joining

  function Split(s: string, sep: char): (parts: seq<string>)
    ensures parts != [] && forall p <- parts :: sep !in p
  {
    if s == [] then [[]]
    else
      var rest := Split(s[1..], sep);
      if s[0] == sep then [[]] + rest else [[s[0]] + rest[0]] + rest[1..]
  }

  function Join(parts: seq<string>, sep: char): string
    requires parts != []
  {
    if |parts| == 1 then parts[0] else parts[0] + [sep] + Join(parts[1..], sep)
  }

  lemma {:induction false} SplitPrefix(s: string, t: string, sep: char)
    requires sep !in s
    ensures Split(s + t, sep) == [s + Split(t, sep)[0]] + Split(t, sep)[1..]
  {
    if s == [] {
      assert s + t == t && s + Split(t, sep)[0] == Split(t, sep)[0];
    } else {
      assert (s + t)[1..] == s[1..] + t;
      SplitPrefix(s[1..], t, sep);
      assert [s[0]] + (s[1..] + Split(t, sep)[0]) == s + Split(t, sep)[0];
    }
  }

  /** Splitting undoes joining, for parts without the separator. */
  lemma {:induction false} SplitJoin(parts: seq<string>, sep: char)
    requires parts != [] && forall p <- parts :: sep !in p
    ensures Split(Join(parts, sep), sep) == parts
  {
    if |parts| == 1 {
      assert parts[0] + [] == parts[0];
      SplitPrefix(parts[0], [], sep);
    } else {
      var rest := [sep] + Join(parts[1..], sep);
      assert rest[0] == sep && rest[1..] == Join(parts[1..], sep);
      assert parts[0] + [sep] + Join(parts[1..], sep) == parts[0] + rest;
      SplitPrefix(parts[0], rest, sep);
      SplitJoin(parts[1..], sep);
      assert Split(rest, sep) == [[]] + parts[1..];
      assert parts[0] + [] == parts[0];
    }
  }

  /** Joining undoes splitting, for any text. */
  lemma {:induction false} JoinSplit(s: string, sep: char)
    ensures Join(Split(s, sep), sep) == s
  {
    if s != [] {
      JoinSplit(s[1..], sep);
      var rest := Split(s[1..], sep);
      if s[0] == sep {
        assert ([[]] + rest)[1..] == rest;
        assert [] + [sep] + Join(rest, sep) == s;
      } else {
        var parts := [[s[0]] + rest[0]] + rest[1..];
        assert parts[1..] == rest[1..];
        assert [s[0]] + s[1..] == s;
      }
    }
  }

  /** The text before and after the first separator. */
  function SplitOnce(s: string, sep: char): Option<(string, string)> {
    if s == [] then None
    else if s[0] == sep then Some(([], s[1..]))
    else
      match SplitOnce(s[1..], sep)
      case None => None
      case Some(cut) => Some(([s[0]] + cut.0, cut.1))
  }

  lemma {:induction false} SplitOnceAt(k: string, v: string, sep: char)
    requires sep !in k
    ensures SplitOnce(k + [sep] + v, sep) == Some((k, v))
  {
    var s := k + [sep] + v;
    if k == [] {
      assert s[1..] == v;
    } else {
      assert s[1..] == k[1..] + [sep] + v;
      SplitOnceAt(k[1..], v, sep);
      assert [s[0]] + k[1..] == k;
    }
  }

  lemma {:induction false} SplitOnceParts(s: string, sep: char)
    ensures SplitOnce(s, sep).Some? ==>
      var cut := SplitOnce(s, sep).value;
      s == cut.0 + [sep] + cut.1
  {
    if s != [] && s[0] != sep {
      SplitOnceParts(s[1..], sep);
    }
  }

  // ---------------------------------------------------------------- the Signature header

  type Params = map<string, string>

  /** What stands between the first and the last character. */
  function Unquote(v: string): string {
    if |v| < 2 then [] else v[1..|v| - 1]
  }

  function AddParam(out: Params, part: string): Option<Params> {
    match SplitOnce(part, '=')
    case None => None
    case Some(kv) => Some(out[kv.0 := Unquote(kv.1)])
  }

  /** None when some part has no equals sign. */
  function ParseParts(parts: seq<string>): Option<Params> {
    if parts == [] then Some(map[])
    else
      match ParseParts(parts[..|parts| - 1])
      case None => None
      case Some(out) => AddParam(out, parts[|parts| - 1])
  }

  datatype Parsed = Absent | Malformed | Fields(params: Params)

  function ParseSigHeader(header: string): Parsed {
    if header == "" then Absent
    else
      match ParseParts(Split(header, ','))
      case None => Malformed
      case Some(params) => Fields(params)
  }

  method ParseSignatureHeader(header: string) returns (parsed: Parsed)
    ensures parsed == ParseSigHeader(header)
  {
    if header == "" {
      return Absent;
    }
    var out: Params := map[];
    var parts := Split(header, ',');
    for n := 0 to |parts|
      invariant ParseParts(parts[..n]) == Some(out)
    {
      assert parts[..n + 1][..n] == parts[..n];
      var kv := SplitOnce(parts[n], '=');
      if kv.None? {
        FailsForGood(parts, n + 1);
        return Malformed;
      }
      out := out[kv.value.0 := Unquote(kv.value.1)];
    }
    assert parts[..|parts|] == parts;
    return Fields(out);
  }

  lemma {:induction false} FailsForGood(parts: seq<string>, n: nat)
    requires n <= |parts| && ParseParts(parts[..n]).None?
    ensures ParseParts(parts).None?
  {
    if n == |parts| {
      assert parts[..n] == parts;
    } else {
      var init := parts[..|parts| - 1];
      assert init[..n] == parts[..n];
      FailsForGood(init, n);
    }
  }

  lemma {:induction false} SplitOnceIff(s: string, sep: char)
    ensures SplitOnce(s, sep).Some? <==> sep in s
    ensures SplitOnce(s, sep).Some? ==> sep !in SplitOnce(s, sep).value.0
  {
    if s != [] && s[0] != sep {
      SplitOnceIff(s[1..], sep);
      assert sep in s <==> sep in s[1..];
    }
  }

  lemma {:induction false} ParseFailsIff(parts: seq<string>)
    ensures ParseParts(parts).None? <==> exists part <- parts :: '=' !in part
  {
    if parts != [] {
      var n := |parts| - 1;
      ParseFailsIff(parts[..n]);
      SplitOnceIff(parts[n], '=');
      assert parts == parts[..n] + [parts[n]];
    }
  }

  /** A header is absent when empty, and cannot be read exactly when one of its parts has no equals sign. */
  lemma MalformedIff(header: string)
    ensures ParseSigHeader(header) == Absent <==> header == ""
    ensures ParseSigHeader(header) == Malformed <==> header != "" && exists part <- Split(header, ',') :: '=' !in part
  {
    ParseFailsIff(Split(header, ','));
  }

  /** The part gives the key a value, which is what stands between the first and the last character behind the
      first equals sign. */
  ghost predicate GivesValue(part: string, key: string, value: string) {
    && '=' !in key
    && exists v: string ::
      && part == key + ['='] + v
      && (|v| < 2 ==> value == [])
      && (|v| >= 2 ==> v == [v[0]] + value + [v[|v| - 1]])
  }

  /** A key gets its value from the last part that gives it one. */
  lemma {:induction false} LastPartWins(parts: seq<string>, i: nat, key: string, value: string)
    requires ParseParts(parts).Some? && i < |parts| && GivesValue(parts[i], key, value)
    requires forall j, other :: i < j < |parts| ==> !GivesValue(parts[j], key, other)
    ensures key in ParseParts(parts).value && ParseParts(parts).value[key] == value
  {
    var n := |parts| - 1;
    var last := parts[n];
    SplitOnceParts(last, '=');
    var k, v := SplitOnce(last, '=').value.0, SplitOnce(last, '=').value.1;
    SplitOnceIff(last, '=');
    if i == n {
      var w: string :| last == key + ['='] + w && (|w| < 2 ==> value == [])
                       && (|w| >= 2 ==> w == [w[0]] + value + [w[|w| - 1]]);
      SplitOnceAt(key, w, '=');
      assert |w| >= 2 ==> w[1..|w| - 1] == value;
    } else {
      assert |v| >= 2 ==> v == [v[0]] + Unquote(v) + [v[|v| - 1]];
      assert GivesValue(last, k, Unquote(v));
      LastPartWins(parts[..n], i, key, value);
    }
  }

  datatype Param = Param(key: string, value: string)

  function PrintParam(p: Param): string {
    p.key + "=" + ("\"" + p.value + "\"")
  }

  function Printed(params: seq<Param>): seq<string> {
    seq(|params|, i requires 0 <= i < |params| => PrintParam(params[i]))
  }

  function PrintParams(params: seq<Param>): string
    requires params != []
  {
    Join(Printed(params), ',')
  }

  /** The header auth_flow sets. */
  function SigValue(keyId: string, headers: string, signature: string): string {
    PrintParams(SigParams(keyId, headers, signature))
  }

  function SigParams(keyId: string, headers: string, signature: string): seq<Param> {
    [Param("keyId", keyId), Param("algorithm", "rsa-sha256"), Param("headers", headers),
     Param("signature", signature)]
  }

  function AsMap(params: seq<Param>): Params {
    if params == [] then map[] else
      AsMap(params[..|params| - 1])[params[|params| - 1].key := params[|params| - 1].value]
  }

  ghost predicate PlainKeys(params: seq<Param>) {
    forall p <- params :: ',' !in p.key && '=' !in p.key
  }

  lemma {:induction false} ParsePrinted(params: seq<Param>)
    requires PlainKeys(params)
    ensures ParseParts(Printed(params)) == Some(AsMap(params))
  {
    var parts := Printed(params);
    if params != [] {
      var n := |params| - 1;
      var p := params[n];
      assert parts[..n] == Printed(params[..n]);
      ParsePrinted(params[..n]);
      var quoted := "\"" + p.value + "\"";
      assert PrintParam(p) == p.key + ['='] + quoted;
      SplitOnceAt(p.key, quoted, '=');
      assert quoted[1..|quoted| - 1] == p.value;
    }
  }

  /** A parsed value never holds a comma. */
  lemma {:induction false} ParsedHasNoComma(parts: seq<string>)
    requires forall p <- parts :: ',' !in p
    requires ParseParts(parts).Some?
    ensures forall k <- ParseParts(parts).value :: ',' !in ParseParts(parts).value[k]
  {
    if parts != [] {
      var last := parts[|parts| - 1];
      ParsedHasNoComma(parts[..|parts| - 1]);
      SplitOnceParts(last, '=');
      var v := SplitOnce(last, '=').value.1;
      assert forall c :: c in Unquote(v) ==> c in v;
      assert forall c :: c in v ==> c in last;
    }
  }

  lemma {:induction false} AsMapValues(params: seq<Param>)
    requires forall i, j :: 0 <= i < j < |params| ==> params[i].key != params[j].key
    ensures forall p <- params :: p.key in AsMap(params) && AsMap(params)[p.key] == p.value
    ensures forall k <- AsMap(params) :: exists p :: p in params && p.key == k && AsMap(params)[k] == p.value
  {
    if params != [] {
      var n := |params| - 1;
      AsMapValues(params[..n]);
      assert params == params[..n] + [params[n]];
      forall k | k in AsMap(params)
        ensures exists p :: p in params && p.key == k && AsMap(params)[k] == p.value
      {
        if k == params[n].key {
          assert params[n] in params;
        } else {
          assert k in AsMap(params[..n]);
          var p :| p in params[..n] && p.key == k && AsMap(params[..n])[k] == p.value;
          assert p in params;
        }
      }
    }
  }

  lemma ParsePrintWithoutCommas(params: seq<Param>)
    requires params != [] && PlainKeys(params)
    requires forall p <- params :: ',' !in p.value
    ensures ParseSigHeader(PrintParams(params)) == Fields(AsMap(params))
  {
    var parts := Printed(params);
    forall part | part in parts
      ensures ',' !in part
    {
      var i :| 0 <= i < |parts| && parts[i] == part;
      assert params[i] in params;
    }
    PrintedIsNotEmpty(params);
    SplitJoin(parts, ',');
    ParsePrinted(params);
  }

  lemma ParseOfAComma(header: string, params: Params)
    requires ParseSigHeader(header) == Fields(params)
    ensures forall k <- params :: ',' !in params[k]
  {
    ParsedHasNoComma(Split(header, ','));
  }

  /** Parsing the printed header gives back its parameters exactly when no value holds a comma. */
  lemma ParsePrintIff(params: seq<Param>)
    requires params != [] && PlainKeys(params)
    requires forall i, j :: 0 <= i < j < |params| ==> params[i].key != params[j].key
    ensures ParseSigHeader(PrintParams(params)) == Fields(AsMap(params)) <==> forall p <- params :: ',' !in p.value
  {
    hide ParseSigHeader, PrintParams;
    AsMapValues(params);
    if forall p <- params :: ',' !in p.value {
      ParsePrintWithoutCommas(params);
    } else if ParseSigHeader(PrintParams(params)) == Fields(AsMap(params)) {
      ParseOfAComma(PrintParams(params), AsMap(params));
    }
  }

  lemma PrintedIsNotEmpty(params: seq<Param>)
    requires params != []
    ensures PrintParams(params) != ""
  {
    var parts := Printed(params);
    assert |PrintParam(params[0])| > 0;
    assert parts[0] == PrintParam(params[0]);
  }

  // ---------------------------------------------------------------- the signed string

  /** A request, with its headers looked up by name. */
  datatype Request = Request(verb: string, path: string, headers: string -> Option<string>, bodyDigest: Option<string>)

  /** Library functions that read times; None when they fail. */
  datatype Dates = Dates(fromTimestamp: string -> Option<int>, parse: string -> Option<int>)

  function LowerChar(c: char): char {
    if 'A' <= c <= 'Z' then c + ('a' - 'A') else c
  }

  /** Lower case, for the ASCII method names of HTTP. */
  function Lower(s: string): (r: string)
    ensures |r| == |s| && forall i :: 0 <= i < |s| ==> r[i] == LowerChar(s[i])
  {
    if s == [] then [] else [LowerChar(s[0])] + Lower(s[1..])
  }

  function Lookup(sig: Params, key: string): Option<string> {
    if key in sig then Some(sig[key]) else None
  }

  /** What a name of the header list stands for; None when it stands for nothing, which is an error. */
  function SignedValue(name: string, req: Request, sig: Params): Option<string> {
    if name == "(request-target)" then Some(Lower(req.verb) + [' '] + req.path)
    else if name == "digest" && req.bodyDigest.Some? && req.bodyDigest.value != "" then req.bodyDigest
    else if name == "(created)" then Lookup(sig, "created")
    else if name == "(expires)" then Lookup(sig, "expires")
    else req.headers(name)
  }

  /** The method name is lowered letter by letter, and only from A to Z. */
  lemma LowerShifts(c: char)
    ensures LowerChar(c) as int == if 65 <= c as int <= 90 then c as int + 32 else c as int
  {
  }

  /** What each name of the header list stands for. */
  lemma SignedValuesAre(req: Request, sig: Params, name: string)
    ensures SignedValue("(request-target)", req, sig) == Some(Lower(req.verb) + " " + req.path)
    ensures SignedValue("(created)", req, sig) == if "created" in sig then Some(sig["created"]) else None
    ensures SignedValue("(expires)", req, sig) == if "expires" in sig then Some(sig["expires"]) else None
    ensures SignedValue("digest", req, sig)
      == if req.bodyDigest.Some? && |req.bodyDigest.value| > 0 then req.bodyDigest else req.headers("digest")
    ensures name !in {"(request-target)", "(created)", "(expires)", "digest"} ==>
      SignedValue(name, req, sig) == req.headers(name)
  {
  }

  datatype DateRead = NoDate | BadDate | ReadDate(at: int)

  function DateIn(name: string, req: Request, sig: Params, dates: Dates): DateRead {
    var text :=
      if name == "(created)" then Lookup(sig, "created") else if name == "date" then req.headers("date") else None;
    if name != "(created)" && name != "date" then NoDate
    else if text.None? then BadDate
    else
      match if name == "date" then dates.parse(text.value) else dates.fromTimestamp(text.value)
      case None => BadDate
      case Some(at) => ReadDate(at)
  }

  /** Only (created) and date carry a date: a time stamp of the signature, and a header of the request. */
  lemma DatesAre(req: Request, sig: Params, dates: Dates, name: string)
    ensures var stamp := if "created" in sig then dates.fromTimestamp(sig["created"]) else None;
      DateIn("(created)", req, sig, dates) == if stamp.Some? then ReadDate(stamp.value) else BadDate
    ensures var header := req.headers("date");
      var read := if header.Some? then dates.parse(header.value) else None;
      DateIn("date", req, sig, dates) == if read.Some? then ReadDate(read.value) else BadDate
    ensures name !in {"(created)", "date"} ==> DateIn(name, req, sig, dates) == NoDate
  {
  }

  predicate Readable(name: string, req: Request, sig: Params, dates: Dates) {
    SignedValue(name, req, sig).Some? && !DateIn(name, req, sig, dates).BadDate?
  }

  lemma ReadableIff(name: string, req: Request, sig: Params, dates: Dates)
    ensures Readable(name, req, sig, dates) <==>
      SignedValue(name, req, sig) != None && DateIn(name, req, sig, dates) != BadDate
  {
  }

  function Line(name: string, req: Request, sig: Params): string {
    name + ": " + SignedValue(name, req, sig).GetOr("")
  }

  function Lines(names: seq<string>, req: Request, sig: Params): seq<string> {
    seq(|names|, i requires 0 <= i < |names| => Line(names[i], req, sig))
  }

  /** The date the last date-bearing name gives. */
  function LastDate(names: seq<string>, req: Request, sig: Params, dates: Dates): Option<int> {
    if names == [] then None
    else
      match DateIn(names[|names| - 1], req, sig, dates)
      case ReadDate(at) => Some(at)
      case _ => LastDate(names[..|names| - 1], req, sig, dates)
  }

  /** The date of the string is that of the last name that gives one. */
  lemma {:induction false} LastDateIs(names: seq<string>, req: Request, sig: Params, dates: Dates, i: nat, at: int)
    requires i < |names| && DateIn(names[i], req, sig, dates) == ReadDate(at)
    requires forall j :: i < j < |names| ==> !DateIn(names[j], req, sig, dates).ReadDate?
    ensures LastDate(names, req, sig, dates) == Some(at)
  {
    if i < |names| - 1 {
      LastDateIs(names[..|names| - 1], req, sig, dates, i, at);
    }
  }

  lemma {:induction false} NoDateIff(names: seq<string>, req: Request, sig: Params, dates: Dates)
    ensures LastDate(names, req, sig, dates) == None
      <==> forall name <- names :: !DateIn(name, req, sig, dates).ReadDate?
  {
    if names != [] {
      var n := |names| - 1;
      NoDateIff(names[..n], req, sig, dates);
      assert names == names[..n] + [names[n]];
    }
  }

  function SignedString(signedHeaders: string, req: Request, sig: Params): string {
    Join(Lines(Split(signedHeaders, ' '), req, sig), '\n')
  }

  method BuildSignedString(signedHeaders: string, req: Request, sig: Params, dates: Dates)
    returns (raised: bool, text: string, date: Option<int>)
    ensures raised <==> exists name :: name in Split(signedHeaders, ' ') && !Readable(name, req, sig, dates)
    ensures !raised ==> text == SignedString(signedHeaders, req, sig)
    ensures !raised ==> date == LastDate(Split(signedHeaders, ' '), req, sig, dates)
  {
    hide SignedValue, DateIn, Split;
    var names := Split(signedHeaders, ' ');
    var out: seq<string> := [];
    date := None;
    for n := 0 to |names|
      invariant out == Lines(names[..n], req, sig)
      invariant date == LastDate(names[..n], req, sig, dates)
      invariant forall i :: 0 <= i < n ==> Readable(names[i], req, sig, dates)
    {
      var name := names[n];
      assert names[..n + 1][..n] == names[..n];
      var read := DateIn(name, req, sig, dates);
      var value := SignedValue(name, req, sig);
      if read.BadDate? || value.None? {
        assert name in names && !Readable(name, req, sig, dates);
        return true, "", None;
      }
      if read.ReadDate? {
        date := Some(read.at);
      }
      out := out + [name + ": " + value.value];
    }
    assert names[..|names|] == names;
    return false, Join(out, '\n'), date;
  }

  /** The string has one line for each listed name, in order: the name, a colon and a space, and its value. */
  lemma LinesOfTheString(signedHeaders: string, req: Request, sig: Params, i: nat)
    requires i < |Split(signedHeaders, ' ')|
    requires NewlineFree(Split(signedHeaders, ' '), req, sig)
    requires SignedValue(Split(signedHeaders, ' ')[i], req, sig).Some?
    ensures var names, lines := Split(signedHeaders, ' '), Split(SignedString(signedHeaders, req, sig), '\n');
      && |lines| == |names|
      && lines[i] == names[i] + ": " + SignedValue(names[i], req, sig).value
  {
    hide SignedValue;
    var names := Split(signedHeaders, ' ');
    LinesAreNewlineFree(names, req, sig);
    SplitJoin(Lines(names, req, sig), '\n');
  }

  ghost predicate NewlineFree(names: seq<string>, req: Request, sig: Params) {
    forall name <- names :: '\n' !in Line(name, req, sig)
  }

  /** Strings with equal heads up to a separator absent from both heads have equal heads and tails. */
  lemma {:induction false} SameCut(a: string, b: string, x: string, y: string, sep: char)
    requires sep !in a && sep !in b && a + [sep] + x == b + [sep] + y
    ensures a == b && x == y
  {
    SplitOnceAt(a, x, sep);
    SplitOnceAt(b, y, sep);
  }

  /** Two requests with equal signed strings agree on every signed value, if no line holds a newline. */
  lemma SignedStringBinds(signedHeaders: string, req: Request, sig: Params, req': Request, sig': Params, name: string)
    requires NewlineFree(Split(signedHeaders, ' '), req, sig) && NewlineFree(Split(signedHeaders, ' '), req', sig')
    requires SignedString(signedHeaders, req, sig) == SignedString(signedHeaders, req', sig')
    requires name in Split(signedHeaders, ' ')
    requires SignedValue(name, req, sig).Some? && SignedValue(name, req', sig').Some?
    ensures SignedValue(name, req, sig) == SignedValue(name, req', sig')
    ensures name == "(request-target)" && ' ' !in req.verb && ' ' !in req'.verb ==>
      Lower(req.verb) == Lower(req'.verb) && req.path == req'.path
  {
    var names := Split(signedHeaders, ' ');
    LinesAreNewlineFree(names, req, sig);
    LinesAreNewlineFree(names, req', sig');
    SplitJoin(Lines(names, req, sig), '\n');
    SplitJoin(Lines(names, req', sig'), '\n');
    var i :| 0 <= i < |names| && names[i] == name;
    assert Lines(names, req, sig)[i] == Lines(names, req', sig')[i];
    SamePrefix(name + ": ", SignedValue(name, req, sig).value, SignedValue(name, req', sig').value);
    if name == "(request-target)" && ' ' !in req.verb && ' ' !in req'.verb {
      LowerKeepsSpaces(req.verb);
      LowerKeepsSpaces(req'.verb);
      SameCut(Lower(req.verb), Lower(req'.verb), req.path, req'.path, ' ');
    }
  }

  lemma LinesAreNewlineFree(names: seq<string>, req: Request, sig: Params)
    requires NewlineFree(names, req, sig)
    ensures forall line <- Lines(names, req, sig) :: '\n' !in line
  {
    forall line | line in Lines(names, req, sig)
      ensures '\n' !in line
    {
      var i :| 0 <= i < |names| && Lines(names, req, sig)[i] == line;
      assert names[i] in names;
    }
  }

  lemma SamePrefix(prefix: string, a: string, b: string)
    requires prefix + a == prefix + b
    ensures a == b
  {
    assert (prefix + a)[|prefix|..] == a && (prefix + b)[|prefix|..] == b;
  }

  lemma LowerKeepsSpaces(s: string)
    requires ' ' !in s
    ensures ' ' !in Lower(s)
  {
    assert forall i :: 0 <= i < |s| ==> s[i] in s;
  }

  function WithHeaders(a: string, b: string): string -> Option<string> {
    name => if name == "a" then Some(a) else if name == "b" then Some(b) else None
  }

  function TwoHeaders(a: string, b: string): Request {
    Request("GET", "/", WithHeaders(a, b), None)
  }

  lemma TwoLines(a: string, b: string)
    ensures SignedString("a b", TwoHeaders(a, b), map[]) == ("a: " + a) + "\n" + ("b: " + b)
  {
    SplitJoin(["a", "b"], ' ');
    assert Join(["a", "b"], ' ') == "a b";
    var lines := Lines(["a", "b"], TwoHeaders(a, b), map[]);
    assert "a" + ": " == "a: " && "b" + ": " == "b: ";
    assert lines[0] == "a: " + a && lines[1] == "b: " + b;
    assert Join(lines[1..], '\n') == lines[1];
  }

  /** A newline in a value lets text move between two signed headers without changing the string. */
  lemma NewlinesUnbind(x: string, y: string, z: string)
    ensures SignedString("a b", TwoHeaders(x + "\nb: " + y, z), map[])
      == SignedString("a b", TwoHeaders(x, y + "\nb: " + z), map[])
  {
    hide SignedString;
    TwoLines(x + "\nb: " + y, z);
    TwoLines(x, y + "\nb: " + z);
    var cut := "\nb: ";
    assert ("a: " + (x + cut + y)) + "\n" + ("b: " + z) == "a: " + x + cut + y + cut + z;
    assert ("a: " + x) + "\n" + ("b: " + (y + cut + z)) == "a: " + x + cut + y + cut + z;
  }

  lemma SigValueParses(keyId: string, headers: string, signature: string)
    requires ',' !in keyId && ',' !in headers && ',' !in signature
    ensures ParseSigHeader(SigValue(keyId, headers, signature)) == Fields(AsMap(SigParams(keyId, headers, signature)))
  {
    hide ParseSigHeader, PrintParams, AsMap;
    SigParamsArePlain(keyId, headers, signature);
    ParsePrintWithoutCommas(SigParams(keyId, headers, signature));
  }

  lemma SigParamsArePlain(keyId: string, headers: string, signature: string)
    requires ',' !in keyId && ',' !in headers && ',' !in signature
    ensures var params := SigParams(keyId, headers, signature);
      PlainKeys(params) && forall p <- params :: ',' !in p.value
  {
    hide PrintParams, AsMap, ParseSigHeader;
    assert forall c: char :: c in "rsa-sha256" ==> c != ',';
    assert forall c: char :: c in "keyId" ==> c != ',' && c != '=';
    assert forall c: char :: c in "algorithm" ==> c != ',' && c != '=';
    assert forall c: char :: c in "headers" ==> c != ',' && c != '=';
    assert forall c: char :: c in "signature" ==> c != ',' && c != '=';
  }

  /** The four parameters, as the parsed map holds them. */
  lemma SigParamsAsMap(keyId: string, headers: string, signature: string)
    ensures AsMap(SigParams(keyId, headers, signature))
      == map["keyId" := keyId, "algorithm" := "rsa-sha256", "headers" := headers, "signature" := signature]
  {
    var p := SigParams(keyId, headers, signature);
    assert p[..3][..2] == p[..2] && p[..2][..1] == p[..1] && p[..1][..0] == [];
    assert AsMap(p[..1]) == map["keyId" := keyId];
    assert AsMap(p[..2]) == map["keyId" := keyId, "algorithm" := "rsa-sha256"];
    assert AsMap(p[..3]) == map["keyId" := keyId, "algorithm" := "rsa-sha256", "headers" := headers];
  }

  /** Without (created) and (expires) the signed string does not depend on the header's own fields. */
  lemma SignedStringIgnoresFields(headers: string, req: Request, params: Params)
    requires "(created)" !in Split(headers, ' ') && "(expires)" !in Split(headers, ' ')
    ensures SignedString(headers, req, params) == SignedString(headers, req, map[])
  {
    hide Lookup;
    var names := Split(headers, ' ');
    forall i | 0 <= i < |names|
      ensures Line(names[i], req, params) == Line(names[i], req, map[])
    {
      assert names[i] in names;
    }
    assert Lines(names, req, params) == Lines(names, req, map[]);
  }

  /** Who verifies a request reads the signer's header list back and rebuilds the very string that was
      signed, when the printed values hold no comma and the request arrives as it was sent. */
  lemma VerifierRebuildsTheString(keyId: string, headers: string, signature: string, req: Request)
    requires ',' !in keyId && ',' !in headers && ',' !in signature
    requires "(created)" !in Split(headers, ' ') && "(expires)" !in Split(headers, ' ')
    ensures var parsed := ParseSigHeader(SigValue(keyId, headers, signature));
      && parsed == Fields(
           map["keyId" := keyId, "algorithm" := "rsa-sha256", "headers" := headers, "signature" := signature])
      && SignedString(parsed.params["headers"], req, parsed.params) == SignedString(headers, req, map[])
  {
    hide SigValue, SigParams, ParseSigHeader, AsMap, SignedString, Split;
    SigValueParses(keyId, headers, signature);
    SigParamsAsMap(keyId, headers, signature);
    SignedStringIgnoresFields(headers, req, AsMap(SigParams(keyId, headers, signature)));
  }
}
