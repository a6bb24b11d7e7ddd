/**
 * The short-code service: random codes over a 62-character alphabet, the loop
 * that retries until the store does not know the code, and the two operations
 * the HTTP layer calls, shortening a URL and resolving a code.
 */
module Service {
  import opened Wrappers
  import opened Mappings
  import opened Repository

  /** The characters a code is drawn from, in the order of the source's literal. */
  const Alphabet: string := "abcdefghijklmnopqrstuvwxyzABCDEFGHIJKLMNOPQRSTUVWXYZ0123456789"

  /** The default of `shortUrlLength`, the length the service always asks for. */
  const DefaultShortUrlLength: int := 6

  /** A position in the alphabet: what one call of `characters.random()` picks. */
  type AlphabetIndex = i: int | 0 <= i < 62

  /**
   * The random source of one code: the alphabet position drawn for each character
   * position. Nothing constrains it, so every code is possible.
   */
  type Draw = nat -> AlphabetIndex

  predicate Alphanumeric(c: char) {
    'a' <= c <= 'z' || 'A' <= c <= 'Z' || '0' <= c <= '9'
  }

  /** The alphabet in order, for each of the three ASCII ranges of the literal */
  lemma AlphabetLayout()
    ensures |Alphabet| == 62
    ensures forall i :: 0 <= i < 26 ==> Alphabet[i] as int == 'a' as int + i
    ensures forall i :: 26 <= i < 52 ==> Alphabet[i] as int == 'A' as int + (i - 26)
    ensures forall i :: 52 <= i < 62 ==> Alphabet[i] as int == '0' as int + (i - 52)
  {
    var lower, upper, digits := "abcdefghijklmnopqrstuvwxyz", "ABCDEFGHIJKLMNOPQRSTUVWXYZ", "0123456789";
    assert forall i :: 0 <= i < 26 ==> lower[i] as int == 'a' as int + i;
    assert forall i :: 0 <= i < 26 ==> upper[i] as int == 'A' as int + i;
    assert forall i :: 0 <= i < 10 ==> digits[i] as int == '0' as int + i;
    assert Alphabet == lower + upper + digits;
  }

  /** Exactly the ASCII letters and digits are in the alphabet, each once. */
  lemma AlphabetIsAsciiAlphanumeric()
    ensures forall c :: c in Alphabet <==> Alphanumeric(c)
    ensures forall i, j :: 0 <= i < j < |Alphabet| ==> Alphabet[i] != Alphabet[j]
  {
    AlphabetLayout();
    forall c | Alphanumeric(c) ensures c in Alphabet {
      assert Alphabet[IndexOf(c)] == c;
    }
  }

  /** The position of an alphanumeric character in the alphabet. */
  function IndexOf(c: char): (i: AlphabetIndex)
    requires Alphanumeric(c)
    ensures Alphabet[i] == c
  {
    AlphabetLayout();
    if 'a' <= c <= 'z' then c as int - 'a' as int
    else if 'A' <= c <= 'Z' then 26 + (c as int - 'A' as int)
    else 52 + (c as int - '0' as int)
  }

  /**
   * `generateShortUrl(shortUrlLength)`: one character per position 1..shortUrlLength,
   * each the one `draw` picks. A length of zero or less gives the empty range.
   */
  function GenerateShortUrl(draw: Draw, shortUrlLength: int := DefaultShortUrlLength): (code: string)
    ensures |code| == if shortUrlLength <= 0 then 0 else shortUrlLength
    ensures forall i :: 0 <= i < |code| ==> Alphanumeric(code[i])
  {
    AlphabetIsAsciiAlphanumeric();
    var n := if shortUrlLength <= 0 then 0 else shortUrlLength;
    seq(n, i requires 0 <= i => Alphabet[draw(i)])
  }

  /** Every alphanumeric string of the requested length is a possible code. */
  lemma EveryAlphanumericCodeIsPossible(code: string)
    requires forall i :: 0 <= i < |code| ==> Alphanumeric(code[i])
    ensures exists draw: Draw :: GenerateShortUrl(draw, |code|) == code
  {
    var draw: Draw := (i: nat) => if i < |code| && Alphanumeric(code[i]) then IndexOf(code[i]) else 0;
    var generated := GenerateShortUrl(draw, |code|);
    forall i | 0 <= i < |code| ensures generated[i] == code[i] {
      assert generated[i] == Alphabet[draw(i)];
    }
  }

  /** Two random sources give the same code exactly when they draw the same positions. */
  lemma CodeDeterminesDraws(d1: Draw, d2: Draw, n: int)
    ensures GenerateShortUrl(d1, n) == GenerateShortUrl(d2, n) <==> forall i: nat :: i < n ==> d1(i) == d2(i)
  {
    AlphabetIsAsciiAlphanumeric();
    var c1, c2 := GenerateShortUrl(d1, n), GenerateShortUrl(d2, n);
    if c1 == c2 {
      forall i: nat | i < n ensures d1(i) == d2(i) {
        assert Alphabet[d1(i)] == c1[i] == c2[i] == Alphabet[d2(i)];
      }
    }
    if forall i: nat :: i < n ==> d1(i) == d2(i) {
      forall i | 0 <= i < |c1| ensures c1[i] == c2[i] {
        assert c1[i] == Alphabet[d1(i)];
      }
    }
  }

  /** The candidate codes the retry loop tries, one per random source, at the default length. */
  function Candidates(source: seq<Draw>): (candidates: seq<string>)
    ensures |candidates| == |source|
    ensures forall k :: 0 <= k < |source| ==> candidates[k] == GenerateShortUrl(source[k])
    ensures forall k :: 0 <= k < |source| ==>
              |candidates[k]| == DefaultShortUrlLength && forall i :: 0 <= i < |candidates[k]| ==> Alphanumeric(candidates[k][i])
  {
    seq(|source|, k requires 0 <= k < |source| => GenerateShortUrl(source[k]))
  }

  /** Candidate `k` is the first one the table does not hold. */
  ghost predicate FirstFreeAt(candidates: seq<string>, rows: Table, k: nat) {
    && k < |candidates|
    && !HasShortUrl(rows, candidates[k])
    && forall j :: 0 <= j < k ==> HasShortUrl(rows, candidates[j])
  }

  /** The table holds every candidate. */
  ghost predicate AllTaken(candidates: seq<string>, rows: Table) {
    forall j :: 0 <= j < |candidates| ==> HasShortUrl(rows, candidates[j])
  }

  /** Either every candidate is taken, or exactly one candidate is the first free one. */
  lemma {:induction false} FreeOrExhausted(candidates: seq<string>, rows: Table)
    ensures AllTaken(candidates, rows) <==> !exists k: nat :: FirstFreeAt(candidates, rows, k)
    ensures forall k1: nat, k2: nat :: FirstFreeAt(candidates, rows, k1) && FirstFreeAt(candidates, rows, k2) ==> k1 == k2
  {
    if candidates != [] && !AllTaken(candidates, rows) {
      if HasShortUrl(rows, candidates[0]) {
        var rest := candidates[1..];
        FreeOrExhausted(rest, rows);
        if AllTaken(rest, rows) {
          forall j | 0 <= j < |candidates| ensures HasShortUrl(rows, candidates[j]) {
            if j > 0 { assert candidates[j] == rest[j - 1]; }
          }
        }
        var k: nat :| FirstFreeAt(rest, rows, k);
        assert FirstFreeAt(candidates, rows, k + 1) by {
          forall j | 0 <= j < k + 1 ensures HasShortUrl(rows, candidates[j]) {
            if j > 0 { assert candidates[j] == rest[j - 1]; }
          }
        }
      } else {
        assert FirstFreeAt(candidates, rows, 0);
      }
    }
  }

  /**
   * The outcome of the retry loop, with the number of candidates it tried. Each try
   * is one call of the store's existence check.
   */
  datatype Generated = Unique(code: string, tried: nat) | Exhausted(tried: nat)

  datatype ServiceError =
    | CodesExhausted
    | StoreFailure(cause: StoreError)
    | NoSuchElement(message: string)

  class UrlShortenerService {
    const repository: UrlMappingRepository

    constructor (repository: UrlMappingRepository)
      ensures this.repository == repository
    {
      this.repository := repository;
    }

    /**
     * `generateUniqueShortUrl`: tries the candidates in order, asking the store about
     * each, and returns the first one it does not hold. The store is only read.
     */
    method GenerateUniqueShortUrl(source: seq<Draw>) returns (r: Generated)
      requires repository.Valid()
      ensures r.Unique? ==> 1 <= r.tried <= |source|
      ensures r.Unique? ==> FirstFreeAt(Candidates(source), repository.rows, r.tried - 1)
      ensures r.Unique? ==> r.code == Candidates(source)[r.tried - 1]
      ensures r.Unique? ==> |r.code| == DefaultShortUrlLength && forall i :: 0 <= i < |r.code| ==> Alphanumeric(r.code[i])
      ensures r.Exhausted? ==> AllTaken(Candidates(source), repository.rows) && r.tried == |source|
      ensures forall k: nat :: FirstFreeAt(Candidates(source), repository.rows, k) ==> r == Unique(Candidates(source)[k], k + 1)
    {
      FreeOrExhausted(Candidates(source), repository.rows);
      var k := 0;
      while k < |source|
        invariant 0 <= k <= |source|
        invariant forall j :: 0 <= j < k ==> HasShortUrl(repository.rows, Candidates(source)[j])
      {
        var candidate := GenerateShortUrl(source[k]);
        var taken := repository.ExistsByShortUrl(candidate);
        if !taken {
          assert FirstFreeAt(Candidates(source), repository.rows, k);
          return Unique(candidate, k + 1);
        }
        k := k + 1;
      }
      return Exhausted(|source|);
    }

    /**
     * `shortenUrl`: saves a new mapping of `originalUrl` under the first free candidate.
     * `id` and `createdAt` stand for the values the entity draws when it is built;
     * the id is a fresh UUID, so no row has it yet.
     */
    method ShortenUrl(originalUrl: string, id: Uuid, createdAt: Timestamp, source: seq<Draw>)
      returns (r: Result<UrlMapping, ServiceError>)
      requires repository.Valid()
      requires id !in repository.rows
      modifies repository
      ensures repository.Valid()
      ensures r.Ok? <==> !AllTaken(Candidates(source), old(repository.rows))
      ensures r.Ok? ==> r.value.id == id && r.value.originalUrl == originalUrl && r.value.createdAt == createdAt
      ensures r.Ok? ==> exists k: nat :: FirstFreeAt(Candidates(source), old(repository.rows), k) && r.value.shortUrl == Candidates(source)[k]
      ensures r.Ok? ==> !HasShortUrl(old(repository.rows), r.value.shortUrl)
      ensures r.Ok? ==> repository.rows == old(repository.rows)[id := r.value]
      ensures forall i :: i in old(repository.rows) ==> i in repository.rows && repository.rows[i] == old(repository.rows)[i]
      ensures r.Ok? ==> Resolves(repository.rows, r.value.shortUrl, originalUrl)
      ensures r.Err? ==> r.error == CodesExhausted && repository.rows == old(repository.rows)
    {
      var generated := GenerateUniqueShortUrl(source);
      if generated.Exhausted? {
        return Err(CodesExhausted);
      }
      var urlMapping := UrlMapping(id, generated.code, originalUrl, createdAt);
      WritePreservesTable(repository.rows, urlMapping);
      var saved := repository.Save(urlMapping);
      r := saved.MapError(e => StoreFailure(e));
    }

    /** `getOriginalUrl`: the URL stored under `shortUrl`, or NoSuchElementException. */
    method GetOriginalUrl(shortUrl: string) returns (r: Result<string, ServiceError>)
      requires repository.Valid()
      ensures r.Ok? <==> HasShortUrl(repository.rows, shortUrl)
      ensures r.Ok? ==> Resolves(repository.rows, shortUrl, r.value)
      ensures r.Err? ==> r.error == NoSuchElement("No mapping found for shortUrl: " + shortUrl)
    {
      var urlMapping := repository.FindByShortUrl(shortUrl);
      if urlMapping.None? {
        return Err(NoSuchElement("No mapping found for shortUrl: " + shortUrl));
      }
      r := Ok(urlMapping.value.originalUrl);
    }
  }

  /**
   * The retry test: the first candidate is taken and the second is free, so the
   * second is returned as the second candidate tried.
   */
  method RetryUntilUnique(service: UrlShortenerService, taken: Draw, free: Draw) returns (r: Generated)
    requires service.repository.Valid()
    requires HasShortUrl(service.repository.rows, GenerateShortUrl(taken))
    requires !HasShortUrl(service.repository.rows, GenerateShortUrl(free))
    ensures r == Unique(GenerateShortUrl(free), 2)
    ensures r.code != GenerateShortUrl(taken)
  {
    r := service.GenerateUniqueShortUrl([taken, free]);
    assert FirstFreeAt(Candidates([taken, free]), service.repository.rows, 1);
  }

  /** A shortened URL resolves back to itself. */
  method ShortenThenResolve(service: UrlShortenerService, originalUrl: string, id: Uuid, createdAt: Timestamp, source: seq<Draw>)
    returns (shortened: Result<UrlMapping, ServiceError>, resolved: Result<string, ServiceError>)
    requires service.repository.Valid()
    requires id !in service.repository.rows
    modifies service.repository
    ensures service.repository.Valid()
    ensures shortened.Ok? ==> resolved == Ok(originalUrl)
    ensures shortened.Err? ==> resolved == Err(shortened.error)
  {
    shortened := service.ShortenUrl(originalUrl, id, createdAt, source);
    if shortened.Err? {
      return shortened, Err(shortened.error);
    }
    resolved := service.GetOriginalUrl(shortened.value.shortUrl);
    ResolvesFunctional(service.repository.rows, shortened.value.shortUrl, originalUrl, resolved.value);
  }

  /**
   * Shortening the same URL twice, under distinct ids, gives two different codes
   * that both resolve to it.
   */
  method ShortenTwice(service: UrlShortenerService, originalUrl: string, id1: Uuid, id2: Uuid, createdAt: Timestamp,
                      source1: seq<Draw>, source2: seq<Draw>)
    returns (first: Result<UrlMapping, ServiceError>, second: Result<UrlMapping, ServiceError>)
    requires service.repository.Valid()
    requires id1 != id2
    requires id1 !in service.repository.rows && id2 !in service.repository.rows
    modifies service.repository
    ensures service.repository.Valid()
    ensures first.Ok? && second.Ok? ==> first.value.shortUrl != second.value.shortUrl
    ensures first.Ok? && second.Ok? ==> Resolves(service.repository.rows, first.value.shortUrl, originalUrl)
    ensures first.Ok? && second.Ok? ==> Resolves(service.repository.rows, second.value.shortUrl, originalUrl)
  {
    first := service.ShortenUrl(originalUrl, id1, createdAt, source1);
    ghost var between := service.repository.rows;
    second := service.ShortenUrl(originalUrl, id2, createdAt, source2);
    if first.Ok? && second.Ok? {
      assert between[id1] == first.value;
      WriteKeepsOtherCodes(between, second.value, first.value.shortUrl, originalUrl);
    }
  }
}
