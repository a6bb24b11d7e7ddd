/**
 * The persisted entity of the url_mappings table: one record per short code,
 * immutable once built, with the code unique across the table.
 */
module Mappings {

  /** The surrogate key. The source draws it from UUID.randomUUID(); here it is given. */
  type Uuid = nat

  /** The creation time. The source reads LocalDateTime.now(); here it is given. */
  type Timestamp = int

  /**
   * A mapping from a short code to the URL it stands for. `shortUrl` is only the
   * random code, not a full URL. Every field is required (no nulls) and read-only.
   */
  datatype UrlMapping = UrlMapping(id: Uuid, shortUrl: string, originalUrl: string, createdAt: Timestamp)

  /** The rows of the table, keyed by id. */
  type Table = map<Uuid, UrlMapping>

  /** `copy(originalUrl = u)`: a new value that keeps the id, the code and the creation time. */
  function WithOriginalUrl(m: UrlMapping, originalUrl: string): (r: UrlMapping)
    ensures r.id == m.id && r.shortUrl == m.shortUrl && r.createdAt == m.createdAt
    ensures r.originalUrl == originalUrl
    ensures r == m <==> m.originalUrl == originalUrl
  {
    m.(originalUrl := originalUrl)
  }

  /** Each row is filed under its own id. */
  ghost predicate WellKeyed(rows: Table) {
    forall id :: id in rows ==> rows[id].id == id
  }

  /** The unique constraint on short_url: no two rows share a code. */
  ghost predicate UniqueShortUrls(rows: Table) {
    forall id1, id2 :: id1 in rows && id2 in rows && rows[id1].shortUrl == rows[id2].shortUrl ==> id1 == id2
  }

  /** Some row holds the code `c`. */
  ghost predicate HasShortUrl(rows: Table, c: string) {
    exists id :: id in rows && rows[id].shortUrl == c
  }

  /** Writing `m` would give its code to two rows: a row under another id already holds it. */
  ghost predicate Collides(rows: Table, m: UrlMapping) {
    exists id :: id in rows && id != m.id && rows[id].shortUrl == m.shortUrl
  }

  /** Some row maps the code `c` to the URL `u`. */
  ghost predicate Resolves(rows: Table, c: string, u: string) {
    exists id :: id in rows && rows[id].shortUrl == c && rows[id].originalUrl == u
  }

  /** Under the unique constraint a code resolves to at most one URL. */
  lemma ResolvesFunctional(rows: Table, c: string, u1: string, u2: string)
    requires UniqueShortUrls(rows)
    requires Resolves(rows, c, u1) && Resolves(rows, c, u2)
    ensures u1 == u2
  {
  }

  /**
   * Writing a mapping that does not collide keeps the table well keyed and unique,
   * makes its code resolve to its URL, and leaves every row under another id as it was.
   */
  lemma WritePreservesTable(rows: Table, m: UrlMapping)
    requires WellKeyed(rows) && UniqueShortUrls(rows)
    requires !Collides(rows, m)
    ensures WellKeyed(rows[m.id := m]) && UniqueShortUrls(rows[m.id := m])
    ensures Resolves(rows[m.id := m], m.shortUrl, m.originalUrl)
    ensures forall id :: id in rows && id != m.id ==> id in rows[m.id := m] && rows[m.id := m][id] == rows[id]
  {
    var rows' := rows[m.id := m];
    assert rows'[m.id].shortUrl == m.shortUrl && rows'[m.id].originalUrl == m.originalUrl;
  }

  /** A write leaves every code resolving as before, unless it replaced the row that held it. */
  lemma WriteKeepsOtherCodes(rows: Table, m: UrlMapping, c: string, u: string)
    requires Resolves(rows, c, u)
    requires m.id !in rows || rows[m.id].shortUrl != c
    ensures Resolves(rows[m.id := m], c, u)
  {
    var id :| id in rows && rows[id].shortUrl == c && rows[id].originalUrl == u;
    assert id != m.id;
    assert rows[m.id := m][id] == rows[id];
  }

  /** Removing the row with a given id leaves its code unused, by uniqueness. */
  lemma RemovalFreesCode(rows: Table, id: Uuid)
    requires UniqueShortUrls(rows)
    requires id in rows
    ensures !HasShortUrl(rows - {id}, rows[id].shortUrl)
  {
  }
}
