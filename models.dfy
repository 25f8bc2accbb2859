/**
  The `links` table row and the timestamp normalisation its defaults use.

  Timestamps are integers counting microseconds from a minute-aligned epoch,
  so zeroing the seconds and microseconds of a `datetime` is rounding down to
  a multiple of one minute.
*/
module Models {
  import opened Common

  const MICROS_PER_MINUTE: int := 60_000_000
  const MICROS_PER_DAY: int := 86_400_000_000

  /** `dt.replace(second=0, microsecond=0)`: the start of the minute holding `t`. */
  function RoundToMinute(t: int): (r: int)
    ensures r % MICROS_PER_MINUTE == 0
    ensures r <= t < r + MICROS_PER_MINUTE
  {
    t - t % MICROS_PER_MINUTE
  }

  /** Rounding an already rounded timestamp changes nothing. */
  lemma RoundToMinuteIdempotent(t: int)
    ensures RoundToMinute(RoundToMinute(t)) == RoundToMinute(t)
  {
  }

  /** Rounding keeps the order of timestamps. */
  lemma RoundToMinuteMonotone(a: int, b: int)
    requires a <= b
    ensures RoundToMinute(a) <= RoundToMinute(b)
  {
  }

  /**
    One row of `links`. The non-nullable columns are plain values; the nullable
    ones (`author_id`, `expires_at`, `last_used_at`) are options. `long_url` carries
    no unique constraint; `short_code` is unique through the table's keying (see
    KeyedByCode).
  */
  datatype Link = Link(
    id: int,
    shortCode: string,
    longUrl: string,
    redirectCounter: nat,
    authorId: Option<int>,
    createdAt: int,
    updatedAt: int,
    expiresAt: Option<int>,
    lastUsedAt: Option<int>)

  /** The id a new row carries until the store assigns one on insert. */
  const UNASSIGNED_ID: int := 0

  /**
    `Link(long_url=..., short_code=..., expires_at=..., author_id=...)` with the
    column defaults filled in at insert time `now`.
  */
  function NewLink(shortCode: string, longUrl: string, authorId: Option<int>, expiresAt: Option<int>, now: int): (l: Link)
    ensures l.shortCode == shortCode && l.longUrl == longUrl
    ensures l.authorId == authorId && l.expiresAt == expiresAt
    ensures l.redirectCounter == 0 && l.lastUsedAt == None
    ensures l.createdAt == l.updatedAt
    ensures l.createdAt % MICROS_PER_MINUTE == 0 && l.createdAt <= now < l.createdAt + MICROS_PER_MINUTE
  {
    var at := RoundToMinute(now);
    Link(UNASSIGNED_ID, shortCode, longUrl, 0, authorId, at, at, expiresAt, None)
  }

  /** The table, keyed by short code: each row sits under its own short code. */
  ghost predicate KeyedByCode(rows: map<string, Link>) {
    forall c :: c in rows ==> rows[c].shortCode == c
  }

  /** No two rows share a `long_url`: kept by the service, not by the schema. */
  ghost predicate UniqueUrls(rows: map<string, Link>) {
    forall a, b :: a in rows && b in rows && rows[a].longUrl == rows[b].longUrl ==> a == b
  }

  /** Every row's id was handed out before `next`. */
  ghost predicate IdsBelow(rows: map<string, Link>, next: int) {
    forall c :: c in rows ==> rows[c].id < next
  }

  /** The codes of the rows whose `long_url` is `url`. */
  function RowsWithUrl(rows: map<string, Link>, url: string): (codes: set<string>)
    ensures forall c :: c in codes <==> c in rows && rows[c].longUrl == url
  {
    set c | c in rows && rows[c].longUrl == url
  }

  /** With unique URLs, a `long_url` query matches at most one row. */
  lemma UniqueUrlsAtMostOne(rows: map<string, Link>, url: string)
    requires UniqueUrls(rows)
    ensures |RowsWithUrl(rows, url)| <= 1
  {
    var codes := RowsWithUrl(rows, url);
    if codes != {} {
      var a :| a in codes;
      assert codes == {a};
    }
  }
}
