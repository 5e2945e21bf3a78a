/** The object-store keys of scan results, and when two of them are the same key. */
module ObjectKeys {

  /** What follows the first occurrence of c, or all of s when there is none. */
  function AfterFirst(s: string, c: char): string {
    if s == [] then []
    else if s[0] == c then s[1..]
    else if c in s[1..] then AfterFirst(s[1..], c)
    else s
  }

  /** The digest without its algorithm prefix. */
  function StripDigestAlgo(digest: string): string {
    AfterFirst(digest, ':')
  }

  function RawResultKey(digest: string, arch: string): string {
    StripDigestAlgo(digest) + "/" + (arch + "/" + "raw_result.json.gz")
  }

  function ParsedResultsDetailsKey(digest: string, arch: string): string {
    StripDigestAlgo(digest) + "/" + (arch + "/" + "parsed_results_details.json.gz")
  }

  function GenerationRawResultKey(digest: string, arch: string, gen: string): string {
    StripDigestAlgo(digest) + "/" + (arch + "/" + ("scan-generations/" + (gen + "/" + "raw_result.json.gz")))
  }

  function GenerationDetailsKey(digest: string, arch: string, gen: string): string {
    StripDigestAlgo(digest) + "/" + (arch + "/" + ("scan-generations/" + (gen + "/" + "parsed_results_details.json.gz")))
  }

  function SbomKey(digest: string, arch: string): string {
    StripDigestAlgo(digest) + "/" + (arch + "/" + "sbom.json.gz")
  }

  /** The keys in full, for a digest with its algorithm. */
  lemma KeysSpelled(algo: string, hash: string, arch: string, gen: string)
    requires ':' !in algo
    ensures var digest := algo + ":" + hash;
      && RawResultKey(digest, arch) == hash + "/" + arch + "/raw_result.json.gz"
      && ParsedResultsDetailsKey(digest, arch) == hash + "/" + arch + "/parsed_results_details.json.gz"
      && GenerationRawResultKey(digest, arch, gen) == hash + "/" + arch + "/scan-generations/" + gen + "/raw_result.json.gz"
      && GenerationDetailsKey(digest, arch, gen) == hash + "/" + arch + "/scan-generations/" + gen + "/parsed_results_details.json.gz"
      && SbomKey(digest, arch) == hash + "/" + arch + "/sbom.json.gz"
  {
    AfterColon(algo, hash);
    hide StripDigestAlgo;
    Slashes(hash, arch, "raw_result.json.gz");
    Slashes(hash, arch, "parsed_results_details.json.gz");
    Slashes(hash, arch, "sbom.json.gz");
    DeepSlashes(hash, arch, gen, "raw_result.json.gz");
    DeepSlashes(hash, arch, gen, "parsed_results_details.json.gz");
  }

  lemma {:induction false} AfterColon(algo: string, hash: string)
    requires ':' !in algo
    ensures StripDigestAlgo(algo + ":" + hash) == hash
  {
    var s := algo + ":" + hash;
    if algo == "" {
      assert s[1..] == hash;
    } else {
      AfterColon(algo[1..], hash);
      assert s[1..] == algo[1..] + ":" + hash;
      assert ":"[0] in s[1..] by { assert s[1..][|algo| - 1] == ':'; }
    }
  }

  lemma Slashes(hash: string, arch: string, name: string)
    ensures hash + "/" + (arch + "/" + name) == hash + "/" + arch + ("/" + name)
  {
  }

  lemma DeepSlashes(hash: string, arch: string, gen: string, name: string)
    ensures hash + "/" + (arch + "/" + ("scan-generations/" + (gen + "/" + name))) == hash + "/" + arch + "/scan-generations/" + gen + ("/" + name)
  {
    var x := gen + "/" + name;
    assert hash + "/" + (arch + "/" + ("scan-generations/" + x)) == (hash + "/" + arch + "/" + "scan-generations/") + x;
    assert "/" + "scan-generations/" == "/scan-generations/";
    assert hash + "/" + arch + "/" + "scan-generations/" == hash + "/" + arch + ("/" + "scan-generations/");
    assert (hash + "/" + arch + "/scan-generations/") + x == hash + "/" + arch + "/scan-generations/" + gen + ("/" + name);
  }

  /** The objects that the keys name. */
  datatype Object =
    | LegacyRaw(digest: string, arch: string)
    | LegacyDetails(digest: string, arch: string)
    | GenerationRaw(digest: string, arch: string, gen: string)
    | GenerationDetails(digest: string, arch: string, gen: string)
    | Sbom(digest: string, arch: string)

  function Key(o: Object): string {
    match o
    case LegacyRaw(d, a) => RawResultKey(d, a)
    case LegacyDetails(d, a) => ParsedResultsDetailsKey(d, a)
    case GenerationRaw(d, a, g) => GenerationRawResultKey(d, a, g)
    case GenerationDetails(d, a, g) => GenerationDetailsKey(d, a, g)
    case Sbom(d, a) => SbomKey(d, a)
  }

  predicate SlashFree(s: string) {
    '/' !in s
  }

  predicate PlainParts(o: Object) {
    && SlashFree(StripDigestAlgo(o.digest)) && SlashFree(o.arch)
    && (o.GenerationRaw? || o.GenerationDetails? ==> SlashFree(o.gen))
  }

  /** The same kind of object of the same image, up to the digest's algorithm. */
  predicate SameObject(o: Object, p: Object) {
    && StripDigestAlgo(o.digest) == StripDigestAlgo(p.digest) && o.arch == p.arch
    && match o
       case LegacyRaw(_, _) => p.LegacyRaw?
       case LegacyDetails(_, _) => p.LegacyDetails?
       case GenerationRaw(_, _, g) => p.GenerationRaw? && p.gen == g
       case GenerationDetails(_, _, g) => p.GenerationDetails? && p.gen == g
       case Sbom(_, _) => p.Sbom?
  }

  /** A path is determined segment by segment. */
  lemma {:induction false} FirstSegment(a: string, x: string, b: string, y: string)
    requires SlashFree(a) && SlashFree(b)
    ensures a + "/" + x == b + "/" + y <==> a == b && x == y
  {
    var s, t := a + "/" + x, b + "/" + y;
    if s == t {
      if a == [] || b == [] {
        assert s[0] == t[0];
        assert a == [] && b == [];
        assert s[1..] == x && t[1..] == y;
      } else {
        assert s[0] == a[0] && t[0] == b[0];
        assert s[1..] == a[1..] + "/" + x && t[1..] == b[1..] + "/" + y;
        FirstSegment(a[1..], x, b[1..], y);
        assert a == [a[0]] + a[1..] && b == [b[0]] + b[1..];
      }
    }
  }

  /** What follows the digest and the architecture. */
  function Rest(o: Object): string {
    match o
    case LegacyRaw(_, _) => "raw_result.json.gz"
    case LegacyDetails(_, _) => "parsed_results_details.json.gz"
    case GenerationRaw(_, _, g) => "scan-generations/" + (g + "/" + "raw_result.json.gz")
    case GenerationDetails(_, _, g) => "scan-generations/" + (g + "/" + "parsed_results_details.json.gz")
    case Sbom(_, _) => "sbom.json.gz"
  }

  lemma KeySegments(o: Object)
    ensures Key(o) == StripDigestAlgo(o.digest) + "/" + (o.arch + "/" + Rest(o))
  {
  }

  lemma GenerationRest(g: string, x: string, h: string, y: string)
    requires SlashFree(g) && SlashFree(h)
    ensures "scan-generations/" + (g + "/" + x) == "scan-generations/" + (h + "/" + y) <==> g == h && x == y
  {
    var p := "scan-generations/";
    var s, t := p + (g + "/" + x), p + (h + "/" + y);
    assert s[|p|..] == g + "/" + x && t[|p|..] == h + "/" + y;
    FirstSegment(g, x, h, y);
  }

  lemma SameRest(o: Object, p: Object)
    requires PlainParts(o) && PlainParts(p)
    requires StripDigestAlgo(o.digest) == StripDigestAlgo(p.digest) && o.arch == p.arch
    ensures Rest(o) == Rest(p) <==> SameObject(o, p)
  {
    var raw, details := "raw_result.json.gz", "parsed_results_details.json.gz";
    assert raw[0] == 'r' && details[0] == 'p';
    if (o.GenerationRaw? || o.GenerationDetails?) && (p.GenerationRaw? || p.GenerationDetails?) {
      GenerationRest(o.gen, if o.GenerationRaw? then raw else details, p.gen, if p.GenerationRaw? then raw else details);
    } else {
      assert "sbom.json.gz"[0] == 's' && "sbom.json.gz"[1] == 'b';
      assert o.GenerationRaw? || o.GenerationDetails? ==> Rest(o)[0] == 's' && Rest(o)[1] == 'c';
      assert p.GenerationRaw? || p.GenerationDetails? ==> Rest(p)[0] == 's' && Rest(p)[1] == 'c';
    }
  }

  /** For slash-free parts two keys are equal exactly when they name the same object. */
  lemma KeysInjective(o: Object, p: Object)
    requires PlainParts(o) && PlainParts(p)
    ensures Key(o) == Key(p) <==> SameObject(o, p)
  {
    KeySegments(o);
    KeySegments(p);
    FirstSegment(StripDigestAlgo(o.digest), o.arch + "/" + Rest(o), StripDigestAlgo(p.digest), p.arch + "/" + Rest(p));
    FirstSegment(o.arch, Rest(o), p.arch, Rest(p));
    if StripDigestAlgo(o.digest) == StripDigestAlgo(p.digest) && o.arch == p.arch {
      SameRest(o, p);
    }
  }

  /** The algorithm is not part of a key: two digests that differ only in it share every key. */
  lemma AlgorithmsCollide(a: string, b: string, hex: string, arch: string, gen: string)
    requires ':' !in a && ':' !in b
    ensures RawResultKey(a + [':'] + hex, arch) == RawResultKey(b + [':'] + hex, arch)
    ensures GenerationRawResultKey(a + [':'] + hex, arch, gen) == GenerationRawResultKey(b + [':'] + hex, arch, gen)
  {
    AfterPrefix(a, hex);
    AfterPrefix(b, hex);
  }

  lemma {:induction false} AfterPrefix(algo: string, hex: string)
    requires ':' !in algo
    ensures StripDigestAlgo(algo + [':'] + hex) == hex
  {
    var s := algo + [':'] + hex;
    if algo != [] {
      assert s[1..] == algo[1..] + [':'] + hex;
      assert s[1..][|algo| - 1] == ':';
      AfterPrefix(algo[1..], hex);
    }
  }

  /** A slash inside an architecture lets a legacy key pass for a generation key. */
  lemma SlashesCollide(digest: string, arch: string, gen: string)
    ensures RawResultKey(digest, arch + "/scan-generations/" + gen) == GenerationRawResultKey(digest, arch, gen)
  {
    var g, x := "scan-generations/", "raw_result.json.gz";
    assert arch + "/scan-generations/" + gen == arch + "/" + (g + gen);
    assert (arch + "/" + (g + gen)) + "/" + x == arch + "/" + (g + (gen + "/" + x));
  }
}
