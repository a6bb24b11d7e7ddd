/**
 * The mapping store: the url_mappings table with its unique index on short_url,
 * and the repository operations the service and the tests use.
 */
module Repository {
  import opened Wrappers
  import opened Mappings

  /** The database refuses a write that would give one code to two rows. */
  datatype StoreError = UniqueViolation(shortUrl: string)

  class UrlMappingRepository {
    /** The rows of the table, keyed by id. */
    var rows: Table
    /** The unique index on short_url: each code in use, with the id of its row. */
    var index: map<string, Uuid>

    /** The index lists exactly the codes of the rows, each with its own row. */
    ghost predicate Valid()
      reads this
      ensures Valid() ==> WellKeyed(rows) && UniqueShortUrls(rows)
    {
      && WellKeyed(rows)
      && (forall c :: c in index ==> index[c] in rows && rows[index[c]].shortUrl == c)
      && (forall id :: id in rows ==> rows[id].shortUrl in index && index[rows[id].shortUrl] == id)
    }

    /** An empty table. */
    constructor ()
      ensures Valid() && rows == map[]
    {
      rows := map[];
      index := map[];
    }

    /**
     * `save`: writes `m` under its id, inserting a new row or replacing the row with
     * that id. The unique constraint rejects it, changing nothing, when a row under
     * another id already holds its code.
     */
    method Save(m: UrlMapping) returns (r: Result<UrlMapping, StoreError>)
      requires Valid()
      modifies this
      ensures Valid()
      ensures r.Err? <==> Collides(old(rows), m)
      ensures r.Ok? ==> r.value == m && rows == old(rows)[m.id := m]
      ensures r.Err? ==> r.error == UniqueViolation(m.shortUrl) && rows == old(rows)
    {
      if m.shortUrl in index && index[m.shortUrl] != m.id {
        return Err(UniqueViolation(m.shortUrl));
      }
      if m.id in rows {
        index := index - {rows[m.id].shortUrl};
      }
      rows := rows[m.id := m];
      index := index[m.shortUrl := m.id];
      r := Ok(m);
    }

    /** `findByShortUrl`: the row holding code `c`, or none when no row holds it. */
    method FindByShortUrl(c: string) returns (r: Option<UrlMapping>)
      requires Valid()
      ensures r.Some? <==> HasShortUrl(rows, c)
      ensures r.Some? ==> r.value.shortUrl == c && r.value.id in rows && rows[r.value.id] == r.value
    {
      if c in index {
        r := Some(rows[index[c]]);
      } else {
        r := None;
      }
    }

    /** `existsByShortUrl`: whether some row holds code `c`. */
    method ExistsByShortUrl(c: string) returns (b: bool)
      requires Valid()
      ensures b <==> HasShortUrl(rows, c)
    {
      b := c in index;
    }

    /** `delete`: removes the row with the id of `m`; nothing happens when there is none. */
    method Delete(m: UrlMapping)
      requires Valid()
      modifies this
      ensures Valid()
      ensures rows == old(rows) - {m.id}
      ensures m.id in old(rows) ==> !HasShortUrl(rows, old(rows)[m.id].shortUrl)
    {
      if m.id in rows {
        index := index - {rows[m.id].shortUrl};
        rows := rows - {m.id};
      }
    }

    /** `deleteAll`: empties the table. */
    method DeleteAll()
      requires Valid()
      modifies this
      ensures Valid()
      ensures rows == map[]
      ensures forall c :: !HasShortUrl(rows, c)
    {
      rows := map[];
      index := map[];
    }
  }

  /**
   * The create, read, update and delete sequence of the repository integration test,
   * on any store: what each step leaves behind follows from the contracts above.
   */
  method CrudRoundTrip(store: UrlMappingRepository, id: Uuid, createdAt: Timestamp)
      returns (retrieved: Option<UrlMapping>, updatedRetrieved: Option<UrlMapping>, afterDeletion: Option<UrlMapping>)
    requires store.Valid()
    requires store.rows == map[]
    modifies store
    ensures retrieved == Some(UrlMapping(id, "test", "https://test.com", createdAt))
    ensures updatedRetrieved == Some(UrlMapping(id, "test", "https://updated.com", createdAt))
    ensures afterDeletion == None
    ensures store.Valid() && store.rows == map[]
  {
    var saved := store.Save(UrlMapping(id, "test", "https://test.com", createdAt));
    assert saved == Ok(UrlMapping(id, "test", "https://test.com", createdAt));
    assert store.rows[id].shortUrl == "test";
    retrieved := store.FindByShortUrl("test");

    var updated := store.Save(WithOriginalUrl(saved.value, "https://updated.com"));
    assert updated.Ok?;
    assert store.rows[id].shortUrl == "test";
    updatedRetrieved := store.FindByShortUrl("test");

    store.Delete(updated.value);
    afterDeletion := store.FindByShortUrl("test");
  }

  /**
   * The multiple-records scenario of the integration test: two mappings saved under
   * different codes and ids are both retrievable afterwards, each with its own URL.
   */
  method MultipleRecords(store: UrlMappingRepository, id1: Uuid, id2: Uuid, createdAt: Timestamp)
    requires store.Valid()
    requires store.rows == map[]
    requires id1 != id2
    modifies store
    ensures store.Valid()
    ensures Resolves(store.rows, "multi1", "https://multi1.com")
    ensures Resolves(store.rows, "multi2", "https://multi2.com")
  {
    var first := store.Save(UrlMapping(id1, "multi1", "https://multi1.com", createdAt));
    var second := store.Save(UrlMapping(id2, "multi2", "https://multi2.com", createdAt));
    assert first.Ok? && second.Ok?;
    assert store.rows[id1].shortUrl == "multi1" && store.rows[id2].shortUrl == "multi2";
  }
}
