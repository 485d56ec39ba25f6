/** The `domain:url` / `domain=url` mapping parser. */
module DomainMap {
  import opened Text

  datatype ParseError = MissingSeparator(pair: string) | EmptyPart(pair: string)

  datatype Result<+T> = Ok(value: T) | Err(error: ParseError)

  type Urls = map<string, string>

  /** strings.Split on one character. */
  function Split(s: string, sep: char): (parts: seq<string>)
    ensures parts != []
  {
    if s == "" then [""]
    else
      var rest := Split(s[1..], sep);
      if s[0] == sep then [""] + rest else Lengthen(s[0], rest)
  }

  /** Puts a character in front of the first part. */
  function Lengthen(c: char, parts: seq<string>): (r: seq<string>)
    requires parts != []
    ensures |r| == |parts|
  {
    [[c] + parts[0]] + parts[1..]
  }

  /** The two parts around the first separator, strings.SplitN with n = 2. */
  function Cut(p: string, sep: char): Option<(string, string)> {
    if p == "" then None
    else if p[0] == sep then Some(("", p[1..]))
    else match Cut(p[1..], sep)
      case None => None
      case Some((k, v)) => Some(([p[0]] + k, v))
  }

  /** One pair between commas; a blank one binds nothing. */
  function ParsePair(pair: string): Result<Option<(string, string)>> {
    var p := TrimSpace(pair);
    if p == "" then Ok(None)
    else match Cut(p, if '=' in p then '=' else ':')
      case None => Err(MissingSeparator(p))
      case Some((k, v)) =>
        var domain, url := ToLower(TrimSpace(k)), TrimSpace(v);
        if domain == "" || url == "" then Err(EmptyPart(p)) else Ok(Some((domain, url)))
  }

  function Bind(m: Urls, binding: Option<(string, string)>): Urls {
    match binding
    case None => m
    case Some((domain, url)) => m[domain := url]
  }

  function ParsePairs(pairs: seq<string>): Result<Urls> {
    if pairs == [] then Ok(map[])
    else match ParsePairs(pairs[..|pairs| - 1])
      case Err(e) => Err(e)
      case Ok(m) =>
        match ParsePair(pairs[|pairs| - 1])
        case Err(e) => Err(e)
        case Ok(binding) => Ok(Bind(m, binding))
  }

  function Parse(spec: string): Result<Urls> {
    if TrimSpace(spec) == "" then Ok(map[]) else ParsePairs(Split(spec, ','))
  }

  lemma {:induction false} ErrorStays(pairs: seq<string>, n: nat)
    requires n <= |pairs| && ParsePairs(pairs[..n]).Err?
    ensures ParsePairs(pairs) == ParsePairs(pairs[..n])
  {
    if n < |pairs| {
      var front := pairs[..|pairs| - 1];
      assert front[..n] == pairs[..n];
      ErrorStays(front, n);
    } else {
      assert pairs[..n] == pairs;
    }
  }

  /** The loop that fills the map pair by pair and stops at the first bad one. */
  method ParseDomainMap(spec: string) returns (r: Result<Urls>)
    ensures r == Parse(spec)
  {
    var m: Urls := map[];
    if TrimSpace(spec) == "" {
      return Ok(m);
    }
    var pairs := Split(spec, ',');
    for i := 0 to |pairs|
      invariant ParsePairs(pairs[..i]) == Ok(m)
    {
      assert pairs[..i + 1][..i] == pairs[..i];
      var p := TrimSpace(pairs[i]);
      if p != "" {
        var sep := if '=' in p then '=' else ':';
        var kv := Cut(p, sep);
        if kv.None? {
          ErrorStays(pairs, i + 1);
          return Err(MissingSeparator(p));
        }
        var domain := ToLower(TrimSpace(kv.value.0));
        var url := TrimSpace(kv.value.1);
        if domain == "" || url == "" {
          ErrorStays(pairs, i + 1);
          return Err(EmptyPart(p));
        }
        m := m[domain := url];
      }
    }
    assert pairs[..|pairs|] == pairs;
    return Ok(m);
  }

  // A blank spec is no special case.

  lemma {:induction false} SplitWithout(s: string, sep: char)
    requires sep !in s
    ensures Split(s, sep) == [s]
  {
    if s != "" {
      SplitWithout(s[1..], sep);
      assert [s[0]] + s[1..] == s;
    }
  }

  lemma {:induction false} BlankIsSpaces(s: string, c: char)
    requires TrimSpace(s) == "" && c in s
    ensures IsSpace(c)
  {
    if TrimLeft(s) == "" {
      TrimLeftBlank(s, c);
    } else {
      var t := TrimLeft(s);
      TrimLeftSuffix(s);
      TrimRightBlank(t, t[0]);
    }
  }

  lemma {:induction false} TrimLeftBlank(s: string, c: char)
    requires TrimLeft(s) == "" && c in s
    ensures IsSpace(c)
  {
    if c != s[0] {
      TrimLeftBlank(s[1..], c);
    }
  }

  lemma {:induction false} TrimRightBlank(s: string, c: char)
    requires TrimRight(s) == "" && c in s
    ensures IsSpace(c)
  {
    if c != s[|s| - 1] {
      TrimRightBlank(s[..|s| - 1], c);
    }
  }

  lemma ParseIsPairs(spec: string)
    ensures Parse(spec) == ParsePairs(Split(spec, ','))
  {
    if TrimSpace(spec) == "" {
      if ',' in spec {
        BlankIsSpaces(spec, ',');
      }
      SplitWithout(spec, ',');
      assert [spec][..0] == [];
    }
  }

  // Parsing is a homomorphism from comma-joined specs to overriding maps.

  lemma LengthenConcat(c: char, left: seq<string>, right: seq<string>)
    requires left != []
    ensures Lengthen(c, left + right) == Lengthen(c, left) + right
  {
    assert (left + right)[1..] == left[1..] + right;
  }

  lemma {:induction false} SplitConcat(a: string, sep: char, b: string)
    ensures Split(a + [sep] + b, sep) == Split(a, sep) + Split(b, sep)
  {
    var s := a + [sep] + b;
    if a == "" {
      assert s[1..] == b;
    } else {
      SplitConcat(a[1..], sep, b);
      assert s[0] == a[0] && s[1..] == a[1..] + [sep] + b;
      var left, right := Split(a[1..], sep), Split(b, sep);
      assert [""] + (left + right) == [""] + left + right;
      LengthenConcat(a[0], left, right);
    }
  }

  /** The first failure wins; otherwise later bindings override earlier ones. */
  function Join(a: Result<Urls>, b: Result<Urls>): Result<Urls> {
    if a.Err? then a else if b.Err? then b else Ok(a.value + b.value)
  }

  lemma BindOver(a: Urls, b: Urls, binding: Option<(string, string)>)
    ensures Bind(a + b, binding) == a + Bind(b, binding)
  {
  }

  lemma {:induction false} ParsePairsConcat(a: seq<string>, b: seq<string>)
    ensures ParsePairs(a + b) == Join(ParsePairs(a), ParsePairs(b))
  {
    if b == [] {
      assert a + b == a;
      assert ParsePairs(a).Ok? ==> ParsePairs(a).value + map[] == ParsePairs(a).value;
    } else {
      var front := b[..|b| - 1];
      assert (a + b)[..|a + b| - 1] == a + front;
      ParsePairsConcat(a, front);
      if ParsePairs(a).Ok? && ParsePairs(b).Ok? {
        var binding := ParsePair(b[|b| - 1]).value;
        BindOver(ParsePairs(a).value, ParsePairs(front).value, binding);
      }
    }
  }

  lemma ParserHomomorphism(a: string, b: string)
    ensures Parse(a + "," + b) == Join(Parse(a), Parse(b))
  {
    ParseIsPairs(a);
    ParseIsPairs(b);
    ParseIsPairs(a + "," + b);
    SplitConcat(a, ',', b);
    ParsePairsConcat(Split(a, ','), Split(b, ','));
  }

  // White space and empty pairs.

  /** The character at which the pair is cut: the first `=`, or the first colon of a pair without one. */
  predicate CutsAt(k: string, sep: char, v: string) {
    sep !in k && (sep == '=' || (sep == ':' && '=' !in k && '=' !in v))
  }

  lemma TrimLeftSep(k: string, sep: char, v: string)
    requires !IsSpace(sep)
    ensures TrimLeft(k + ([sep] + v)) == TrimLeft(k) + ([sep] + v)
  {
    if Blank(k) {
      TrimLeftPadded(k, [sep] + v);
      TrimLeftPadded(k, "");
      assert k + "" == k;
    } else {
      TrimLeftThrough(k, [sep] + v);
    }
  }

  lemma TrimRightSep(k: string, sep: char, v: string)
    requires !IsSpace(sep)
    ensures TrimRight((k + [sep]) + v) == (k + [sep]) + TrimRight(v)
  {
    if Blank(v) {
      TrimRightPadded(k + [sep], v);
      TrimRightPadded("", v);
      assert "" + v == v;
    } else {
      TrimRightThrough(k + [sep], v);
    }
  }

  lemma TrimAround(k: string, sep: char, v: string)
    requires !IsSpace(sep)
    ensures TrimSpace(k + [sep] + v) == TrimLeft(k) + [sep] + TrimRight(v)
  {
    assert k + [sep] + v == k + ([sep] + v);
    TrimLeftSep(k, sep, v);
    assert TrimLeft(k) + ([sep] + v) == (TrimLeft(k) + [sep]) + v;
    TrimRightSep(TrimLeft(k), sep, v);
  }

  lemma CutThere(k: string, sep: char, v: string)
    requires CutsAt(k, sep, v)
    ensures var p := k + [sep] + v; Cut(p, if '=' in p then '=' else ':') == Some((k, v))
  {
    var p := k + [sep] + v;
    assert p[|k|] == sep;
    assert '=' in p <==> sep == '=';
    CutJoined(k, sep, v);
  }

  lemma TrimKeepsCut(k: string, sep: char, v: string)
    requires CutsAt(k, sep, v)
    ensures CutsAt(TrimLeft(k), sep, TrimRight(v))
  {
    TrimLeftSuffix(k);
    TrimRightPrefix(v);
  }

  /** A pair binds the trimmed text before its separator to the trimmed text after it. */
  lemma PairMeaning(k: string, sep: char, v: string)
    requires CutsAt(k, sep, v)
    ensures ParsePair(k + [sep] + v) ==
            var domain, url := ToLower(TrimSpace(k)), TrimSpace(v);
            if domain == "" || url == "" then Err(EmptyPart(TrimSpace(k + [sep] + v))) else Ok(Some((domain, url)))
  {
    TrimAround(k, sep, v);
    TrimKeepsCut(k, sep, v);
    CutThere(TrimLeft(k), sep, TrimRight(v));
    TrimAbsorbsLeft(k);
    TrimAbsorbsRight(v);
  }

  // Which specs parse.

  lemma BlankIff(s: string)
    ensures TrimSpace(s) == "" <==> Blank(s)
  {
    if Blank(s) {
      TrimBlank(s);
    } else if TrimSpace(s) == "" {
      var i :| 0 <= i < |s| && !IsSpace(s[i]);
      BlankIsSpaces(s, s[i]);
    }
  }

  /** A pair that is not blank and has no separator is refused. */
  lemma PairWithoutSeparator(pair: string)
    requires !Blank(pair) && '=' !in pair && ':' !in pair
    ensures ParsePair(pair) == Err(MissingSeparator(TrimSpace(pair)))
  {
    BlankIff(pair);
    TrimSpaceFacts(pair);
    CutFacts(TrimSpace(pair), ':');
  }

  /** Where a pair with a separator is cut. */
  lemma CutOf(pair: string) returns (k: string, sep: char, v: string)
    requires '=' in pair || ':' in pair
    ensures pair == k + [sep] + v && CutsAt(k, sep, v)
  {
    sep := if '=' in pair then '=' else ':';
    CutFacts(pair, sep);
    k, v := Cut(pair, sep).value.0, Cut(pair, sep).value.1;
    assert forall c :: c in k || c in v ==> c in pair;
  }

  /** The pair is text, a separator and text, with something on either side. */
  ghost predicate TwoParts(pair: string) {
    exists k, sep, v :: CutsAt(k, sep, v) && pair == k + [sep] + v && !Blank(k) && !Blank(v)
  }

  lemma CutIsUnique(k1: string, sep1: char, v1: string, k2: string, sep2: char, v2: string)
    requires CutsAt(k1, sep1, v1) && CutsAt(k2, sep2, v2) && k1 + [sep1] + v1 == k2 + [sep2] + v2
    ensures k1 == k2 && sep1 == sep2 && v1 == v2
  {
    CutThere(k1, sep1, v1);
    CutThere(k2, sep2, v2);
    assert (k1 + [sep1] + v1)[|k1|] == sep1;
  }

  /** A piece of a spec that is in order: blank, or two parts. */
  ghost predicate InOrder(pair: string) {
    Blank(pair) || TwoParts(pair)
  }

  /** What is wrong with one that is not. */
  function Fault(pair: string): ParseError {
    if '=' in pair || ':' in pair then EmptyPart(TrimSpace(pair)) else MissingSeparator(TrimSpace(pair))
  }

  lemma CutPairInOrder(k: string, sep: char, v: string)
    requires CutsAt(k, sep, v)
    ensures TwoParts(k + [sep] + v) <==> !Blank(k) && !Blank(v)
  {
    var pair := k + [sep] + v;
    if k2, sep2, v2 :| CutsAt(k2, sep2, v2) && pair == k2 + [sep2] + v2 && !Blank(k2) && !Blank(v2) {
      CutIsUnique(k, sep, v, k2, sep2, v2);
    }
  }

  lemma PartsNeedSeparator(pair: string)
    requires TwoParts(pair)
    ensures '=' in pair || ':' in pair
  {
    var k, sep, v :| CutsAt(k, sep, v) && pair == k + [sep] + v && !Blank(k) && !Blank(v);
    assert pair[|k|] == sep;
  }

  /** A pair parses exactly when it is in order, and fails with its fault. */
  lemma PairParsesIff(pair: string)
    ensures ParsePair(pair).Ok? <==> InOrder(pair)
    ensures !InOrder(pair) ==> ParsePair(pair) == Err(Fault(pair))
  {
    BlankIff(pair);
    if '=' in pair || ':' in pair {
      var k, sep, v := CutOf(pair);
      PairMeaning(k, sep, v);
      BlankIff(k);
      BlankIff(v);
      CutPairInOrder(k, sep, v);
    } else {
      if !Blank(pair) {
        PairWithoutSeparator(pair);
      }
      if TwoParts(pair) {
        PartsNeedSeparator(pair);
      }
    }
  }

  lemma {:induction false} PairsParseIff(pairs: seq<string>)
    ensures ParsePairs(pairs).Ok? <==> forall i :: 0 <= i < |pairs| ==> InOrder(pairs[i])
  {
    if pairs != [] {
      var k := |pairs| - 1;
      PairsParseIff(pairs[..k]);
      PairParsesIff(pairs[k]);
      assert forall i :: 0 <= i < k ==> pairs[..k][i] == pairs[i];
    }
  }

  /** A spec parses exactly when every piece between commas is in order. */
  lemma SpecParsesIff(spec: string)
    ensures Parse(spec).Ok? <==> forall i :: 0 <= i < |Split(spec, ',')| ==> InOrder(Split(spec, ',')[i])
  {
    ParseIsPairs(spec);
    PairsParseIff(Split(spec, ','));
  }

  /** The fault reported is that of the first piece that is not in order. */
  lemma SpecFailsAtFirst(spec: string, i: nat)
    requires i < |Split(spec, ',')| && !InOrder(Split(spec, ',')[i])
    requires forall j :: 0 <= j < i ==> InOrder(Split(spec, ',')[j])
    ensures Parse(spec) == Err(Fault(Split(spec, ',')[i]))
  {
    var pieces := Split(spec, ',');
    ParseIsPairs(spec);
    PairsParseIff(pieces[..i]);
    PairParsesIff(pieces[i]);
    assert pieces[..i + 1][..i] == pieces[..i];
    ErrorStays(pieces, i + 1);
  }

  /** A bare domain is not a mapping. */
  lemma BareDomainRefused()
    ensures Parse("example.com") == Err(MissingSeparator("example.com"))
  {
    var spec := "example.com";
    TrimSpaceFacts(spec);
    assert spec[0] == 'e';
    PairWithoutSeparator(spec);
    ParseSingle(spec);
  }

  lemma PairPadded(ws1: string, p: string, ws2: string)
    requires Blank(ws1) && Blank(ws2)
    ensures ParsePair(ws1 + p + ws2) == ParsePair(p)
  {
    TrimSpacePadded(ws1, p, ws2);
  }

  lemma PaddedCut(k: string, ws1: string, sep: char, ws2: string, v: string)
    requires CutsAt(k, sep, v) && Blank(ws1) && Blank(ws2)
    ensures CutsAt(k + ws1, sep, ws2 + v)
  {
    assert forall i :: 0 <= i < |ws1| ==> ws1[i] != sep && ws1[i] != '=';
    assert forall i :: 0 <= i < |ws2| ==> ws2[i] != '=';
  }

  /** White space around the separator changes no binding, and no failure but in the text it quotes. */
  lemma SeparatorPadded(k: string, ws1: string, sep: char, ws2: string, v: string)
    requires CutsAt(k, sep, v) && Blank(ws1) && Blank(ws2)
    ensures var tight, loose := k + [sep] + v, (k + ws1) + [sep] + (ws2 + v);
            if ParsePair(tight).Ok? then ParsePair(loose) == ParsePair(tight)
            else ParsePair(tight) == Err(EmptyPart(TrimSpace(tight))) && ParsePair(loose) == Err(EmptyPart(TrimSpace(loose)))
  {
    PaddedCut(k, ws1, sep, ws2, v);
    PairMeaning(k, sep, v);
    PairMeaning(k + ws1, sep, ws2 + v);
    TrimSpacePadded("", k, ws1);
    TrimSpacePadded(ws2, v, "");
    assert "" + k + ws1 == k + ws1 && ws2 + v + "" == ws2 + v;
  }

  lemma PadLeft(ws: string, spec: string)
    requires Blank(ws)
    ensures Parse(ws + spec) == Parse(spec)
  {
    if ',' in spec {
      CutFacts(spec, ',');
      var (a, b) := Cut(spec, ',').value;
      PadSingle(ws, a, "");
      ParserHomomorphism(ws + a, b);
      ParserHomomorphism(a, b);
      assert ws + spec == ws + a + "," + b && ws + a + "" == ws + a;
    } else {
      PadSingle(ws, spec, "");
      assert ws + spec + "" == ws + spec;
    }
  }

  lemma {:induction false} PadRight(spec: string, ws: string)
    requires Blank(ws)
    ensures Parse(spec + ws) == Parse(spec)
    decreases |spec|
  {
    if ',' in spec {
      CutFacts(spec, ',');
      var (a, b) := Cut(spec, ',').value;
      PadRight(b, ws);
      ParserHomomorphism(a, b + ws);
      ParserHomomorphism(a, b);
      assert spec + ws == a + "," + (b + ws);
    } else {
      PadSingle("", spec, ws);
      assert "" + spec + ws == spec + ws;
    }
  }

  lemma PadSingle(ws1: string, p: string, ws2: string)
    requires Blank(ws1) && Blank(ws2) && ',' !in p
    ensures Parse(ws1 + p + ws2) == Parse(p)
  {
    assert forall i :: 0 <= i < |ws1| ==> ws1[i] != ',';
    assert forall i :: 0 <= i < |ws2| ==> ws2[i] != ',';
    ParseSingle(p);
    ParseSingle(ws1 + p + ws2);
    PairPadded(ws1, p, ws2);
  }

  /** White space around a spec never matters. */
  lemma SpecPadded(ws1: string, spec: string, ws2: string)
    requires Blank(ws1) && Blank(ws2)
    ensures Parse(ws1 + spec + ws2) == Parse(spec)
  {
    PadRight(ws1 + spec, ws2);
    PadLeft(ws1, spec);
  }

  lemma BlankSpec(ws: string)
    requires Blank(ws)
    ensures Parse(ws) == Ok(map[])
  {
    TrimBlank(ws);
  }

  /** Blank pairs never matter, at either end or in the middle of a spec. */
  lemma BlankPairs(a: string, ws: string, b: string)
    requires Blank(ws)
    ensures Parse(a + "," + ws) == Parse(a) == Parse(ws + "," + a)
    ensures Parse(a + "," + (ws + "," + b)) == Parse(a + "," + b)
  {
    BlankSpec(ws);
    ParserHomomorphism(a, ws);
    ParserHomomorphism(ws, a);
    ParserHomomorphism(ws, b);
    ParserHomomorphism(a, ws + "," + b);
    ParserHomomorphism(a, b);
    UnitOfJoin(Parse(a));
    UnitOfJoin(Parse(b));
  }

  lemma UnitOfJoin(r: Result<Urls>)
    ensures Join(r, Ok(map[])) == r == Join(Ok(map[]), r)
  {
    assert r.Ok? ==> r.value + map[] == r.value == map[] + r.value;
  }

  // What a parsed map looks like, and its round trip.

  predicate GoodEntry(domain: string, url: string) {
    && domain != "" && Trimmed(domain) && ToLower(domain) == domain && '=' !in domain && ',' !in domain
    && url != "" && Trimmed(url) && ',' !in url
  }

  predicate WellFormed(m: Urls) {
    forall k :: k in m ==> GoodEntry(k, m[k])
  }

  lemma {:induction false} CutFacts(p: string, sep: char)
    ensures Cut(p, sep).None? <==> sep !in p
    ensures Cut(p, sep).Some? ==>
              var (k, v) := Cut(p, sep).value;
              p == k + [sep] + v && sep !in k
  {
    if p != "" && p[0] != sep {
      CutFacts(p[1..], sep);
    }
  }

  lemma {:induction false} CutJoined(k: string, sep: char, v: string)
    requires sep !in k
    ensures Cut(k + [sep] + v, sep) == Some((k, v))
  {
    var p := k + [sep] + v;
    if k == "" {
      assert p[1..] == v;
    } else {
      assert p[0] == k[0] && p[1..] == k[1..] + [sep] + v && [k[0]] + k[1..] == k;
      CutJoined(k[1..], sep, v);
    }
  }

  lemma ParsePairGood(pair: string)
    requires ',' !in pair && ParsePair(pair).Ok? && ParsePair(pair).value.Some?
    ensures GoodEntry(ParsePair(pair).value.value.0, ParsePair(pair).value.value.1)
  {
    var p := TrimSpace(pair);
    TrimSpaceFacts(pair);
    var sep := if '=' in p then '=' else ':';
    CutFacts(p, sep);
    var (k, v) := Cut(p, sep).value;
    assert forall c :: c in k || c in v ==> c in p;
    TrimSpaceFacts(k);
    TrimSpaceFacts(v);
    ToLowerFacts(TrimSpace(k));
  }

  lemma {:induction false} SplitPieces(s: string, sep: char)
    ensures forall i :: 0 <= i < |Split(s, sep)| ==> sep !in Split(s, sep)[i]
  {
    if s != "" {
      SplitPieces(s[1..], sep);
    }
  }

  lemma {:induction false} ParsePairsWellFormed(pairs: seq<string>)
    requires forall i :: 0 <= i < |pairs| ==> ',' !in pairs[i]
    ensures ParsePairs(pairs).Ok? ==> WellFormed(ParsePairs(pairs).value)
  {
    if pairs != [] && ParsePairs(pairs).Ok? {
      ParsePairsWellFormed(pairs[..|pairs| - 1]);
      if ParsePair(pairs[|pairs| - 1]).value.Some? {
        ParsePairGood(pairs[|pairs| - 1]);
      }
    }
  }

  lemma ParseWellFormed(spec: string)
    ensures Parse(spec).Ok? ==> WellFormed(Parse(spec).value)
  {
    SplitPieces(spec, ',');
    ParsePairsWellFormed(Split(spec, ','));
  }

  /** The entries of the listed keys, joined by commas. */
  function Print(order: seq<string>, m: Urls): string
    requires forall k :: k in order ==> k in m
  {
    if order == [] then ""
    else
      var k := order[|order| - 1];
      (if |order| == 1 then "" else Print(order[..|order| - 1], m) + ",") + (k + "=" + m[k])
  }

  lemma ParseSingle(p: string)
    requires ',' !in p
    ensures Parse(p) == match ParsePair(p) case Err(e) => Err(e) case Ok(binding) => Ok(Bind(map[], binding))
  {
    ParseIsPairs(p);
    SplitWithout(p, ',');
    var one: seq<string> := [p];
    assert one[..0] == [];
  }

  lemma ParseEntry(domain: string, url: string)
    requires GoodEntry(domain, url)
    ensures Parse(domain + "=" + url) == Ok(map[domain := url])
  {
    var p := domain + "=" + url;
    TrimSpaceFacts(p);
    TrimSpaceFacts(domain);
    TrimSpaceFacts(url);
    CutJoined(domain, '=', url);
    assert p[|domain|] == '=';
    ParseSingle(p);
  }

  function Restrict(order: seq<string>, m: Urls): Urls
    requires forall k :: k in order ==> k in m
  {
    map k | k in order :: m[k]
  }

  lemma RestrictSnoc(order: seq<string>, m: Urls)
    requires order != [] && forall k :: k in order ==> k in m
    ensures var front, k := order[..|order| - 1], order[|order| - 1];
            Restrict(order, m) == Restrict(front, m) + map[k := m[k]]
  {
    var front, k := order[..|order| - 1], order[|order| - 1];
    assert order == front + [k];
  }

  /** A pair cut behind the colon of a colon form gets a longer domain than was meant. */
  lemma CutTooLate(domain: string, url: string)
    requires GoodEntry(domain, url) && '=' in url
    ensures var r := ParsePair(domain + ":" + url); r.Ok? && r.value.Some? ==> r.value.value.0 != domain
  {
    var p := domain + ":" + url;
    TrimSpaceFacts(p);
    CutFacts(p, '=');
    assert '=' in p;
    var (k, v) := Cut(p, '=').value;
    assert p[|k|] == '=';
    assert |k| > |domain| by {
      assert forall i :: 0 <= i < |domain| ==> p[i] == domain[i];
    }
    assert k[0] == p[0] == domain[0] && k[|domain|] == p[|domain|] == ':';
    assert TrimLeft(k) == k;
    TrimRightStops(k, |domain|);
  }

  /** A pair cut inside the domain gets a shorter one. */
  lemma CutTooEarly(domain: string, url: string)
    requires GoodEntry(domain, url) && '=' !in url && ':' in domain
    ensures var r := ParsePair(domain + ":" + url); r.Ok? && r.value.Some? ==> r.value.value.0 != domain
  {
    var p := domain + ":" + url;
    TrimSpaceFacts(p);
    CutFacts(p, ':');
    var (k, v) := Cut(p, ':').value;
    TrimSpaceFacts(k);
    ToLowerFacts(TrimSpace(k));
  }

  /** The colon form means what it says exactly when the url has no `=`, where the pair would be cut instead,
      and the domain no colon. */
  lemma ColonFormIff(domain: string, url: string)
    requires GoodEntry(domain, url)
    ensures Parse(domain + ":" + url) == Ok(map[domain := url]) <==> '=' !in url && ':' !in domain
  {
    ParseSingle(domain + ":" + url);
    if '=' in url || ':' in domain {
      if '=' in url { CutTooLate(domain, url); } else { CutTooEarly(domain, url); }
      assert Parse(domain + ":" + url).Ok? ==> domain !in Parse(domain + ":" + url).value;
    } else {
      TrimSpaceFacts(domain);
      TrimSpaceFacts(url);
      PairMeaning(domain, ':', url);
    }
  }

  /** Where it fails: the url takes the cut, or the domain does. */
  lemma ColonFormMissesUrl()
    ensures GoodEntry("h", "u=v") && Parse("h:u=v") == Ok(map["h:u" := "v"])
  {
    assert ToLower("h") == "h" && ToLower("h:u") == "h:u";
    ParseEntry("h:u", "v");
    assert "h:u" + "=" + "v" == "h:u=v";
  }

  lemma ColonFormMissesDomain()
    ensures GoodEntry("h:1", "u") && Parse("h:1:u") == Ok(map["h" := "1:u"])
  {
    assert ToLower("h") == "h" && ToLower("h:1") == "h:1";
    ColonFormIff("h", "1:u");
    assert "h" + ":" + "1:u" == "h:1:u";
  }

  lemma ParseAppended(spec: string, m: Urls, domain: string, url: string)
    requires Parse(spec) == Ok(m) && GoodEntry(domain, url)
    ensures Parse(spec + "," + (domain + "=" + url)) == Ok(m + map[domain := url])
  {
    ParseEntry(domain, url);
    ParserHomomorphism(spec, domain + "=" + url);
  }

  lemma PrintsOne(k: string, m: Urls)
    requires WellFormed(m) && k in m
    ensures Parse(Print([k], m)) == Ok(Restrict([k], m))
  {
    assert Print([k], m) == k + "=" + m[k];
    ParseEntry(k, m[k]);
    assert Restrict([k], m) == map[k := m[k]];
  }

  lemma {:induction false} PrintParses(order: seq<string>, m: Urls)
    requires WellFormed(m) && forall k :: k in order ==> k in m
    ensures Parse(Print(order, m)) == Ok(Restrict(order, m))
  {
    if order == [] {
      assert Restrict(order, m) == map[];
    } else if |order| == 1 {
      PrintsOne(order[0], m);
      assert order == [order[0]];
    } else {
      var front, k := order[..|order| - 1], order[|order| - 1];
      PrintParses(front, m);
      RestrictSnoc(order, m);
      ParseAppended(Print(front, m), Restrict(front, m), k, m[k]);
    }
  }

  lemma RestrictAll(order: seq<string>, m: Urls)
    requires (set k | k in order) == m.Keys
    ensures forall k :: k in order ==> k in m
    ensures Restrict(order, m) == m
  {
    assert forall k :: k in order <==> k in (set x | x in order);
  }

  /** Printing a parsed map, in any order of its keys, and parsing again gives the same map. */
  lemma ParsePrintParse(spec: string, order: seq<string>)
    requires Parse(spec).Ok? && (set k | k in order) == Parse(spec).value.Keys
    ensures forall k :: k in order ==> k in Parse(spec).value
    ensures Parse(Print(order, Parse(spec).value)) == Parse(spec)
  {
    var m := Parse(spec).value;
    ParseWellFormed(spec);
    RestrictAll(order, m);
    PrintParses(order, m);
  }

  lemma {:induction false} Listing(s: set<string>) returns (order: seq<string>)
    ensures (set k | k in order) == s
  {
    if s == {} {
      order := [];
    } else {
      var k :| k in s;
      var rest := Listing(s - {k});
      order := rest + [k];
      assert (set x | x in order) == (set x | x in rest) + {k};
    }
  }

  /** The parser yields exactly the well-formed maps. */
  lemma ParserImage(m: Urls)
    ensures WellFormed(m) <==> exists spec :: Parse(spec) == Ok(m)
  {
    if WellFormed(m) {
      var order := Listing(m.Keys);
      RestrictAll(order, m);
      PrintParses(order, m);
    }
    if spec :| Parse(spec) == Ok(m) {
      ParseWellFormed(spec);
    }
  }

  // Which binding a host gets.

  /** The url of the last pair that binds the host. */
  function LastBinding(pairs: seq<string>, host: string): Option<string> {
    if pairs == [] then None
    else match ParsePair(pairs[|pairs| - 1])
      case Ok(Some((domain, url))) =>
        if domain == host then Some(url) else LastBinding(pairs[..|pairs| - 1], host)
      case _ => LastBinding(pairs[..|pairs| - 1], host)
  }

  lemma {:induction false} LastBindingWins(pairs: seq<string>, host: string)
    requires ParsePairs(pairs).Ok?
    ensures var m := ParsePairs(pairs).value;
            LastBinding(pairs, host) == if host in m then Some(m[host]) else None
  {
    if pairs != [] {
      LastBindingWins(pairs[..|pairs| - 1], host);
    }
  }
}
