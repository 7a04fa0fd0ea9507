/** The pages that on_people_get_all hands out (HttpServer/protocol.cpp). The texts of a record are copied into the
    buffers of the response without a terminator, so what a reader sees depends on what the buffers held before. */
module PeoplePaging {
  import opened PersonStore

  /** MAX_NUM_PER_PAGE */
  const MAX_PER_PAGE := 50

  // ---------- C buffers ----------

  /** A C buffer, with all its characters. */
  type Buffer = string

  /** The index of the terminator, or the end of the buffer. */
  function Terminator(b: Buffer, from: nat := 0): (n: nat)
    requires from <= |b|
    ensures from <= n <= |b| && (n < |b| ==> b[n] == '\0')
    ensures forall i | from <= i < n :: b[i] != '\0'
    decreases |b| - from
  {
    if from == |b| || b[from] == '\0' then from else Terminator(b, from + 1)
  }

  /** The text that a reader sees in a buffer. */
  function Text(b: Buffer): string {
    b[..Terminator(b)]
  }

  /** memcpy of a text, without its terminator. */
  function Copy(text: string, b: Buffer): (c: Buffer)
    requires |text| <= |b|
    ensures |c| == |b|
  {
    text + b[|text|..]
  }

  /** The buffer ends the text: its character behind the text is a terminator. */
  predicate EndsText(text: string, b: Buffer) {
    '\0' !in text && (|b| > |text| ==> b[|text|] == '\0')
  }

  lemma CopyShows(text: string, b: Buffer)
    requires |text| <= |b|
    ensures Text(Copy(text, b)) == text <==> EndsText(text, b)
  {
    var c := Copy(text, b);
    var n := Terminator(c);
    assert forall i | 0 <= i < |text| :: c[i] == text[i];
    if |b| > |text| {
      assert c[|text|] == b[|text|];
    }
    if Text(c) == text {
      assert n == |text|;
      assert forall i | 0 <= i < |text| :: text[i] == c[i] != '\0';
    }
    if EndsText(text, b) {
      assert n == |text|;
      assert c[..|text|] == text;
    }
  }

  // ---------- Records ----------

  /** papi_request_person_info, as buffers or as the texts in them. */
  datatype Record = Record(
    personUuid: string, personType: int, name: string, group: string, idCardNo: string, cardNo: string, male: string,
    addTime: string)

  function Zeros(n: nat): Buffer {
    seq(n, _ => '\0')
  }

  const BLANK := Record(Zeros(128), 0, Zeros(64), Zeros(128), Zeros(64), Zeros(64), Zeros(8), Zeros(128))

  /** A record of the response, with the buffer sizes of papi.h. */
  type Slot = r: Record | HasBuffers(r) witness BLANK

  predicate HasBuffers(r: Record) {
    && |r.personUuid| == 128 && |r.name| == 64 && |r.group| == 128 && |r.idCardNo| == 64 && |r.cardNo| == 64
    && |r.male| == 8 && |r.addTime| == 128
  }

  /** A person whose texts fit the buffers. */
  type Fitting = p: Person | Fits(p) witness NOBODY

  const NOBODY := Person(
    Columns("", 1, 0, "", "", "", "", "", [], "", "", "", "", "", "", "", "", [], 0, 0), 0)

  predicate Fits(p: Person) {
    && |p.cols.uuid| <= 128 && |p.cols.name| <= 64 && |p.cols.gids| <= 128 && |p.cols.idcard| <= 64
    && |p.cols.iccard| <= 64 && |p.cols.sex| <= 8 && |p.cols.createtime| <= 128
  }

  /** What a reader should see of a person. */
  function RecordOf(p: Fitting): Record {
    Record(p.cols.uuid, p.cols.persontype, p.cols.name, p.cols.gids, p.cols.idcard, p.cols.iccard, p.cols.sex,
           p.cols.createtime)
  }

  /** What a reader sees of a record. */
  function Seen(r: Slot): Record {
    Record(Text(r.personUuid), r.personType, Text(r.name), Text(r.group), Text(r.idCardNo), Text(r.cardNo), Text(r.male),
           Text(r.addTime))
  }

  /** The copying of one person into a record. */
  function Put(p: Fitting, r: Slot): Slot {
    Record(Copy(p.cols.uuid, r.personUuid), p.cols.persontype, Copy(p.cols.name, r.name), Copy(p.cols.gids, r.group),
           Copy(p.cols.idcard, r.idCardNo), Copy(p.cols.iccard, r.cardNo), Copy(p.cols.sex, r.male),
           Copy(p.cols.createtime, r.addTime))
  }

  /** The record that was there ends every text of the person. */
  predicate Clean(p: Fitting, r: Slot) {
    && EndsText(p.cols.uuid, r.personUuid) && EndsText(p.cols.name, r.name) && EndsText(p.cols.gids, r.group)
    && EndsText(p.cols.idcard, r.idCardNo) && EndsText(p.cols.iccard, r.cardNo) && EndsText(p.cols.sex, r.male)
    && EndsText(p.cols.createtime, r.addTime)
  }

  /** A reader sees the person that was copied if and only if the old record ends every text. */
  lemma PutShows(p: Fitting, r: Slot)
    ensures Seen(Put(p, r)) == RecordOf(p) <==> Clean(p, r)
  {
    CopyShows(p.cols.uuid, r.personUuid);
    CopyShows(p.cols.name, r.name);
    CopyShows(p.cols.gids, r.group);
    CopyShows(p.cols.idcard, r.idCardNo);
    CopyShows(p.cols.iccard, r.cardNo);
    CopyShows(p.cols.sex, r.male);
    CopyShows(p.cols.createtime, r.addTime);
  }

  /** Each text is seen in its own field. */
  lemma PersonShown(p: Fitting, r: Slot)
    requires Clean(p, r)
    ensures
      var seen := Seen(Put(p, r));
      && seen.personUuid == p.cols.uuid && seen.personType == p.cols.persontype && seen.name == p.cols.name
      && seen.group == p.cols.gids && seen.idCardNo == p.cols.idcard && seen.cardNo == p.cols.iccard
      && seen.male == p.cols.sex && seen.addTime == p.cols.createtime
  {
    PutShows(p, r);
  }

  /** A text that holds no terminator itself. */
  predicate Plain(p: Fitting) {
    && '\0' !in p.cols.uuid && '\0' !in p.cols.name && '\0' !in p.cols.gids && '\0' !in p.cols.idcard
    && '\0' !in p.cols.iccard && '\0' !in p.cols.sex && '\0' !in p.cols.createtime
  }

  /** A zeroed record is clean for every person. */
  lemma BlankIsClean(p: Fitting)
    requires Plain(p)
    ensures Clean(p, BLANK)
  {
  }

  /** A buffer that held a longer text shows the new text with the tail of the old one. */
  lemma LongerTextStays(text: string, held: string, zeros: Buffer)
    requires |text| <= |held| < |zeros| && '\0' !in text && '\0' !in held && zeros[|held|] == '\0'
    ensures Text(Copy(text, Copy(held, zeros))) == text + held[|text|..]
  {
    var mixed := text + held[|text|..];
    assert Copy(text, Copy(held, zeros)) == mixed + zeros[|held|..];
    CopyShows(mixed, zeros);
    assert mixed + zeros[|held|..] == Copy(mixed, zeros);
  }

  /** A used record is not: where the name "Alexandra" stood, the name "Bob" reads "Bobxandra". */
  lemma UsedRecordMixesTexts(alexandra: Fitting, bob: Fitting)
    requires alexandra.cols.name == "Alexandra" && bob.cols.name == "Bob"
    ensures Seen(Put(bob, Put(alexandra, BLANK))).name == "Bobxandra"
  {
    LongerTextStays("Bob", "Alexandra", Zeros(64));
    assert "Alexandra"[3..] == "xandra";
  }

  // ---------- Whole pages and the rest ----------

  /** Where page number page starts: a page behind the one before it. */
  function Offset(page: nat, perPage: nat): nat {
    if page <= 1 then 0 else Offset(page - 1, perPage) + perPage
  }

  lemma {:induction false} OffsetIs(page: nat, perPage: nat)
    requires page >= 1
    ensures Offset(page, perPage) == (page - 1) * perPage
  {
    if page > 1 {
      OffsetIs(page - 1, perPage);
      OneMoreFactor(page - 2, perPage);
    }
  }

  lemma OneMoreFactor(a: int, b: int)
    ensures (a + 1) * b == a * b + b
  {
  }

  lemma {:induction false} OffsetsAscend(p: nat, q: nat, perPage: nat)
    requires p <= q
    ensures Offset(p, perPage) <= Offset(q, perPage)
    decreases q - p
  {
    if p < q {
      OffsetsAscend(p, q - 1, perPage);
    }
  }

  /** The number of whole pages. */
  function WholePages(count: nat, perPage: nat): nat
    requires perPage >= 1
    decreases count
  {
    if count < perPage then 0 else 1 + WholePages(count - perPage, perPage)
  }

  /** What the whole pages leave. */
  function Rest(count: nat, perPage: nat): (r: nat)
    requires perPage >= 1
    ensures r < perPage
    decreases count
  {
    if count < perPage then count else Rest(count - perPage, perPage)
  }

  /** The whole pages and the rest fill the list. */
  lemma {:induction false} WholeAndRest(count: nat, perPage: nat)
    requires perPage >= 1
    ensures Offset(WholePages(count, perPage) + 1, perPage) + Rest(count, perPage) == count
    decreases count
  {
    if count >= perPage {
      WholeAndRest(count - perPage, perPage);
    }
  }

  /** They are the quotient and the remainder. */
  lemma QuotientAndRemainder(count: nat, perPage: nat)
    requires perPage >= 1
    ensures WholePages(count, perPage) == count / perPage && Rest(count, perPage) == count % perPage
  {
    WholeAndRest(count, perPage);
    OffsetIs(WholePages(count, perPage) + 1, perPage);
    Quotient(count, perPage, WholePages(count, perPage), Rest(count, perPage));
  }

  lemma Quotient(n: nat, d: nat, q: nat, r: nat)
    requires n == q * d + r && r < d
    ensures q == n / d && r == n % d
  {
    var e := n / d;
    assert n == e * d + n % d;
    if q < e {
      MoreTimes(q, e, d);
    } else if e < q {
      MoreTimes(e, q, d);
    }
  }

  lemma MoreTimes(a: int, b: int, d: nat)
    requires a < b
    ensures a * d + d <= b * d
  {
    assert (b - a - 1) * d >= 0;
  }

  /** A whole page lies within the list. */
  lemma PageWithin(page: nat, count: nat, perPage: nat)
    requires perPage >= 1 && 1 <= page <= WholePages(count, perPage)
    ensures Offset(page + 1, perPage) == Offset(page, perPage) + perPage <= count
  {
    WholeAndRest(count, perPage);
    OffsetsAscend(page + 1, WholePages(count, perPage) + 1, perPage);
  }

  // ---------- The response ----------

  datatype Response<S> = Response(totalPage: int, currentPage: int, count: int, perPage: int, records: seq<S>)

  /** The copying loops: n persons from one position on, into the first records. */
  function Filled<P, S>(put: (P, S) -> S, list: seq<P>, offset: nat, n: nat, before: seq<S>): (r: seq<S>)
    requires offset + n <= |list| && n <= |before|
    ensures |r| == |before|
    ensures forall i | 0 <= i < n :: r[i] == put(list[offset + i], before[i])
    ensures forall i | n <= i < |before| :: r[i] == before[i]
  {
    seq(|before|, i requires 0 <= i < |before| => if i < n then put(list[offset + i], before[i]) else before[i])
  }

  /** What the handler leaves in a response that held before. */
  function Respond<P, S>(put: (P, S) -> S, list: seq<P>, page: nat, perPage: nat, before: Response<S>): (r: Response<S>)
    requires page >= 1 && 1 <= perPage <= MAX_PER_PAGE == |before.records|
  {
    var count, whole, rest := |list|, WholePages(|list|, perPage), Rest(|list|, perPage);
    if count == 0 then before.(totalPage := 0, currentPage := 0, count := 0, perPage := 0)
    else if count < perPage then Response(1, 1, count, count, Filled(put, list, 0, count, before.records))
    else
      var total := if rest == 0 then whole else whole + 1;
      if page <= whole then
        PageWithin(page, count, perPage);
        Response(total, page, count, perPage, Filled(put, list, Offset(page, perPage), perPage, before.records))
      else if page == total then
        WholeAndRest(count, perPage);
        Response(total, page, count, rest, Filled(put, list, Offset(page, perPage), rest, before.records))
      else before.(totalPage := total, currentPage := if rest == 0 then before.currentPage else page)
  }

  class PeopleResponse {
    var totalPage: int
    var currentPage: int
    var count: int
    var perPage: int
    const records: array<Slot>

    constructor ()
      ensures Valid() && fresh(records) && forall i | 0 <= i < MAX_PER_PAGE :: records[i] == BLANK
    {
      records := new Slot[MAX_PER_PAGE](_ => BLANK);
    }

    ghost predicate Valid() {
      records.Length == MAX_PER_PAGE
    }

    function View(): Response<Slot>
      requires Valid()
      reads this, records
    {
      Response(totalPage, currentPage, count, perPage, records[..])
    }

    /** The copying loops. */
    method Fill(list: seq<Fitting>, offset: nat, n: nat)
      requires offset + n <= |list| && n <= records.Length
      modifies records
      ensures records[..] == Filled(Put, list, offset, n, old(records[..]))
    {
      ghost var before := records[..];
      for i := 0 to n
        invariant forall j | 0 <= j < i :: records[j] == Put(list[offset + j], before[j])
        invariant forall j | i <= j < records.Length :: records[j] == before[j]
      {
        records[i] := Put(list[i + offset], records[i]);
      }
    }

    method GetAll(list: seq<Fitting>, page: nat, pageSize: nat)
      requires Valid() && page >= 1 && 1 <= pageSize <= MAX_PER_PAGE
      modifies this, records
      ensures View() == Respond(Put, list, page, pageSize, old(View()))
    {
      var personCount := |list|;
      QuotientAndRemainder(personCount, pageSize);
      if personCount > 0 {
        if personCount < pageSize {
          totalPage, currentPage, count, perPage := 1, 1, personCount, personCount;
          Fill(list, 0, personCount);
        } else {
          if personCount % pageSize == 0 {
            totalPage := personCount / pageSize;
          } else {
            totalPage := personCount / pageSize + 1;
            currentPage := page;
            if page == totalPage {
              WholeAndRest(personCount, pageSize);
              OffsetIs(page, pageSize);
              var offset := (page - 1) * pageSize;
              perPage := personCount % pageSize;
              count := personCount;
              Fill(list, offset, perPage);
            }
          }
          if page <= personCount / pageSize {
            PageWithin(page, personCount, pageSize);
            OffsetIs(page, pageSize);
            var offset := (page - 1) * pageSize;
            currentPage, count, perPage := page, personCount, pageSize;
            Fill(list, offset, pageSize);
          }
        }
      } else {
        count, currentPage, totalPage, perPage := 0, 0, 0, 0;
      }
    }
  }

  // ---------- All pages together ----------

  function TotalPage(count: nat, perPage: nat): nat
    requires perPage >= 1
  {
    if count == 0 then 0
    else if count < perPage then 1
    else if Rest(count, perPage) == 0 then WholePages(count, perPage) else WholePages(count, perPage) + 1
  }

  /** The number of pages is the number of persons divided by the page size, rounded up; it does not depend on the
      page asked for. */
  lemma TotalPages<P, S>(put: (P, S) -> S, list: seq<P>, page: nat, perPage: nat, before: Response<S>)
    requires page >= 1 && 1 <= perPage <= MAX_PER_PAGE == |before.records|
    ensures
      var total := Respond(put, list, page, perPage, before).totalPage;
      && total == TotalPage(|list|, perPage)
      && (if list == [] then total == 0 else (total - 1) * perPage < |list| <= total * perPage)
  {
    var total := TotalPage(|list|, perPage);
    WholeAndRest(|list|, perPage);
    if list != [] {
      OffsetIs(total, perPage);
      OffsetIs(total + 1, perPage);
    }
  }

  /** Where page k ends in the list. */
  function PageEnd(count: nat, k: nat, perPage: nat): (end: nat)
    ensures end <= count
  {
    if Offset(k + 1, perPage) <= count then Offset(k + 1, perPage) else count
  }

  /** The pages lie one behind the other and end with the list. */
  lemma PageBounds(count: nat, k: nat, perPage: nat)
    requires perPage >= 1 && 1 <= k <= TotalPage(count, perPage)
    ensures Offset(k, perPage) == PageEnd(count, k - 1, perPage) < PageEnd(count, k, perPage)
    ensures PageEnd(count, k, perPage) - Offset(k, perPage) <= perPage
    ensures k == TotalPage(count, perPage) ==> PageEnd(count, k, perPage) == count
  {
    WholeAndRest(count, perPage);
    if count >= perPage {
      OffsetsAscend(k, WholePages(count, perPage) + 1, perPage);
      if k <= WholePages(count, perPage) {
        PageWithin(k, count, perPage);
      }
    }
  }

  /** What page k puts into a response. */
  lemma PageIs<P, S>(put: (P, S) -> S, list: seq<P>, k: nat, perPage: nat, before: Response<S>)
    requires 1 <= perPage <= MAX_PER_PAGE == |before.records| && 1 <= k <= TotalPage(|list|, perPage)
    ensures PageEnd(|list|, k - 1, perPage) <= PageEnd(|list|, k, perPage) <= PageEnd(|list|, k - 1, perPage) + MAX_PER_PAGE
    ensures
      var m, n := PageEnd(|list|, k - 1, perPage), PageEnd(|list|, k, perPage);
      var r := Respond(put, list, k, perPage, before);
      r.perPage == n - m && r.records == Filled(put, list, m, n - m, before.records)
  {
    PageBounds(|list|, k, perPage);
    WholeAndRest(|list|, perPage);
    if |list| >= perPage && k <= WholePages(|list|, perPage) {
      PageWithin(k, |list|, perPage);
    }
  }

  /** What the answer for an existing page says about itself; without persons all four numbers are 0. */
  lemma PageHeader<P, S>(put: (P, S) -> S, list: seq<P>, k: nat, perPage: nat, before: Response<S>)
    requires k >= 1 && 1 <= perPage <= MAX_PER_PAGE == |before.records|
    ensures
      var r := Respond(put, list, k, perPage, before);
      if list == [] then r == before.(totalPage := 0, currentPage := 0, count := 0, perPage := 0)
      else
        && (k <= r.totalPage ==> r.currentPage == k && r.count == |list|)
        && (k < r.totalPage ==> r.perPage == perPage)
        && (k == r.totalPage ==> r.perPage == |list| - (k - 1) * perPage)
  {
    TotalPages(put, list, k, perPage, before);
    if list != [] && k <= TotalPage(|list|, perPage) {
      PageIs(put, list, k, perPage, before);
      PageBounds(|list|, k, perPage);
      OffsetIs(k, perPage);
    }
  }

  // ---------- What a reader sees ----------

  /** How a person is put into a record, what a reader sees of a record and should see of a person, and which records are
      clean for a person. */
  datatype Copying<!P, !S, !R> = Copying(put: (P, S) -> S, seen: S -> R, wanted: P -> R, clean: (P, S) -> bool)

  /** A reader sees what is wanted if and only if the record that was there is clean. */
  ghost predicate Exact<P(!new), S(!new), R>(c: Copying<P, S, R>) {
    forall p, s :: c.seen(c.put(p, s)) == c.wanted(p) <==> c.clean(p, s)
  }

  function Mapped<A, B>(f: A -> B, s: seq<A>): (r: seq<B>)
    ensures |r| == |s|
    ensures forall i | 0 <= i < |s| :: r[i] == f(s[i])
  {
    seq(|s|, i requires 0 <= i < |s| => f(s[i]))
  }

  /** The records that a reader sees in a response. */
  function SeenIn<S, R>(seen: S -> R, r: Response<S>): seq<R> {
    if 0 <= r.perPage <= |r.records| then Mapped(seen, r.records[..r.perPage]) else []
  }

  /** The records are clean for the persons between two positions. */
  predicate CleanFor<P, S>(clean: (P, S) -> bool, list: seq<P>, m: nat, n: nat, before: seq<S>) {
    m <= n <= |list| && n - m <= |before| && forall i | 0 <= i < n - m :: clean(list[m + i], before[i])
  }

  lemma FilledShows<P(!new), S(!new), R>(c: Copying<P, S, R>, list: seq<P>, m: nat, n: nat, before: seq<S>)
    requires Exact(c) && m <= n <= |list| && n - m <= |before|
    ensures
      Mapped(c.seen, Filled(c.put, list, m, n - m, before)[..n - m]) == Mapped(c.wanted, list)[m..n]
      <==> CleanFor(c.clean, list, m, n, before)
  {
    var seen, wanted := Mapped(c.seen, Filled(c.put, list, m, n - m, before)[..n - m]), Mapped(c.wanted, list)[m..n];
    forall i | 0 <= i < n - m ensures seen[i] == wanted[i] <==> c.clean(list[m + i], before[i]) {
      assert seen[i] == c.seen(c.put(list[m + i], before[i])) && wanted[i] == c.wanted(list[m + i]);
    }
  }

  /** What a reader sees of the first k pages, the response for page i having held before(i). */
  function FirstPages<P, S, R>(
      c: Copying<P, S, R>, list: seq<P>, perPage: nat, before: nat -> Response<S>, k: nat): seq<R>
    requires 1 <= perPage <= MAX_PER_PAGE && HoldRecords(before)
  {
    if k == 0 then []
    else FirstPages(c, list, perPage, before, k - 1) + PageSeen(c, list, perPage, before(k), k)
  }

  function PageSeen<P, S, R>(c: Copying<P, S, R>, list: seq<P>, perPage: nat, before: Response<S>, k: nat): seq<R>
    requires 1 <= perPage <= MAX_PER_PAGE == |before.records| && k >= 1
  {
    SeenIn(c.seen, Respond(c.put, list, k, perPage, before))
  }

  /** The responses have all their records. */
  ghost predicate HoldRecords<S>(before: nat -> Response<S>) {
    forall i :: |before(i).records| == MAX_PER_PAGE
  }

  /** The response for each of the first k pages was clean for the persons of the page. */
  predicate FirstPagesClean<P, S>(
      clean: (P, S) -> bool, list: seq<P>, perPage: nat, before: nat -> Response<S>, k: nat)
  {
    forall i | 1 <= i <= k ::
      CleanFor(clean, list, PageEnd(|list|, i - 1, perPage), PageEnd(|list|, i, perPage), before(i).records)
  }

  lemma {:induction false} FirstPagesLength<P, S, R>(
      c: Copying<P, S, R>, list: seq<P>, perPage: nat, before: nat -> Response<S>, k: nat)
    requires 1 <= perPage <= MAX_PER_PAGE && HoldRecords(before) && k <= TotalPage(|list|, perPage)
    ensures |FirstPages(c, list, perPage, before, k)| == PageEnd(|list|, k, perPage)
  {
    if k > 0 {
      FirstPagesLength(c, list, perPage, before, k - 1);
      PageIs(c.put, list, k, perPage, before(k));
    }
  }

  lemma {:induction false} FirstPagesShowIff<P(!new), S(!new), R>(
      c: Copying<P, S, R>, list: seq<P>, perPage: nat, before: nat -> Response<S>, k: nat)
    requires Exact(c) && 1 <= perPage <= MAX_PER_PAGE && HoldRecords(before) && k <= TotalPage(|list|, perPage)
    ensures
      FirstPages(c, list, perPage, before, k) == Mapped(c.wanted, list)[..PageEnd(|list|, k, perPage)]
      <==> FirstPagesClean(c.clean, list, perPage, before, k)
  {
    if k > 0 {
      var m, n, all := PageEnd(|list|, k - 1, perPage), PageEnd(|list|, k, perPage), Mapped(c.wanted, list);
      var front, page := FirstPages(c, list, perPage, before, k - 1), PageSeen(c, list, perPage, before(k), k);
      FirstPagesLength(c, list, perPage, before, k - 1);
      FirstPagesShowIff(c, list, perPage, before, k - 1);
      assert front == all[..m] <==> FirstPagesClean(c.clean, list, perPage, before, k - 1);
      PageShowsIff(c, list, perPage, before(k), k);
      assert page == all[m..n] <==> CleanFor(c.clean, list, m, n, before(k).records);
      JoinsIff(front, page, all, m, n);
      OneMorePageClean(c.clean, list, perPage, before, k);
      assert FirstPages(c, list, perPage, before, k) == front + page;
    }
  }

  lemma OneMorePageClean<P, S>(clean: (P, S) -> bool, list: seq<P>, perPage: nat, before: nat -> Response<S>, k: nat)
    requires k >= 1
    ensures
      FirstPagesClean(clean, list, perPage, before, k) <==>
      && FirstPagesClean(clean, list, perPage, before, k - 1)
      && CleanFor(clean, list, PageEnd(|list|, k - 1, perPage), PageEnd(|list|, k, perPage), before(k).records)
  {
  }

  /** What a reader sees in the answer for page k. */
  lemma PageShowsIff<P(!new), S(!new), R>(c: Copying<P, S, R>, list: seq<P>, perPage: nat, before: Response<S>, k: nat)
    requires Exact(c) && 1 <= perPage <= MAX_PER_PAGE == |before.records| && 1 <= k <= TotalPage(|list|, perPage)
    ensures PageEnd(|list|, k - 1, perPage) <= PageEnd(|list|, k, perPage)
    ensures
      var m, n := PageEnd(|list|, k - 1, perPage), PageEnd(|list|, k, perPage);
      var page := PageSeen(c, list, perPage, before, k);
      && |page| == n - m
      && (page == Mapped(c.wanted, list)[m..n] <==> CleanFor(c.clean, list, m, n, before.records))
  {
    PageIs(c.put, list, k, perPage, before);
    FilledShows(c, list, PageEnd(|list|, k - 1, perPage), PageEnd(|list|, k, perPage), before.records);
  }

  lemma JoinsIff<T>(a: seq<T>, b: seq<T>, all: seq<T>, m: nat, n: nat)
    requires m <= n <= |all| && |a| == m && |b| == n - m
    ensures a + b == all[..n] <==> a == all[..m] && b == all[m..n]
  {
    assert all[..n] == all[..m] + all[m..n];
    if a + b == all[..n] {
      assert a == (a + b)[..m] && b == (a + b)[m..];
      assert all[..m] == all[..n][..m] && all[m..n] == all[..n][m..];
    }
  }

  lemma AllPagesShowIff<P(!new), S(!new), R>(c: Copying<P, S, R>, list: seq<P>, perPage: nat, before: nat -> Response<S>)
    requires Exact(c) && 1 <= perPage <= MAX_PER_PAGE && HoldRecords(before)
    ensures
      FirstPages(c, list, perPage, before, TotalPage(|list|, perPage)) == Mapped(c.wanted, list)
      <==> FirstPagesClean(c.clean, list, perPage, before, TotalPage(|list|, perPage))
  {
    FirstPagesShowIff(c, list, perPage, before, TotalPage(|list|, perPage));
    LastPageEnds(|list|, perPage);
    assert Mapped(c.wanted, list)[..|list|] == Mapped(c.wanted, list);
  }

  lemma LastPageEnds(count: nat, perPage: nat)
    requires perPage >= 1
    ensures PageEnd(count, TotalPage(count, perPage), perPage) == count
  {
    if count > 0 {
      PageBounds(count, TotalPage(count, perPage), perPage);
    }
  }

  /** Persons copied into the records of papi.h. */
  const PERSONS: Copying<Fitting, Slot, Record> := Copying(Put, Seen, RecordOf, Clean)

  lemma PersonsExact()
    ensures Exact(PERSONS)
  {
    forall p: Fitting, r: Slot ensures PERSONS.seen(PERSONS.put(p, r)) == PERSONS.wanted(p) <==> PERSONS.clean(p, r) {
      PutShows(p, r);
    }
  }

  /** Asking for every page from 1 to the total shows the whole list in order, each person once, if and only if every
      response was clean for the persons it was asked for. */
  lemma PagesAreTheListIff(list: seq<Fitting>, perPage: nat, before: nat -> Response<Slot>)
    requires 1 <= perPage <= MAX_PER_PAGE && HoldRecords(before)
    ensures
      FirstPages(PERSONS, list, perPage, before, TotalPage(|list|, perPage)) == Mapped(PERSONS.wanted, list)
      <==> FirstPagesClean(PERSONS.clean, list, perPage, before, TotalPage(|list|, perPage))
  {
    PersonsExact();
    AllPagesShowIff(PERSONS, list, perPage, before);
  }

  /** In particular, zeroed responses show the whole list. */
  lemma PagesAreTheList(list: seq<Fitting>, perPage: nat, before: nat -> Response<Slot>)
    requires 1 <= perPage <= MAX_PER_PAGE && HoldRecords(before)
    requires forall i | 0 <= i < |list| :: Plain(list[i])
    requires forall i, j | 0 <= j < MAX_PER_PAGE :: before(i).records[j] == BLANK
    ensures FirstPages(PERSONS, list, perPage, before, TotalPage(|list|, perPage)) == Mapped(PERSONS.wanted, list)
  {
    PagesAreTheListIff(list, perPage, before);
    forall k | 1 <= k <= TotalPage(|list|, perPage)
      ensures
        CleanFor(PERSONS.clean, list, PageEnd(|list|, k - 1, perPage), PageEnd(|list|, k, perPage), before(k).records)
    {
      PageBounds(|list|, k, perPage);
      BlankRecordsAreClean(list, PageEnd(|list|, k - 1, perPage), PageEnd(|list|, k, perPage), before(k).records);
    }
  }

  lemma BlankRecordsAreClean(list: seq<Fitting>, m: nat, n: nat, before: seq<Slot>)
    requires m <= n <= |list| && n - m <= |before|
    requires forall i | 0 <= i < |list| :: Plain(list[i])
    requires forall j | 0 <= j < |before| :: before[j] == BLANK
    ensures CleanFor(PERSONS.clean, list, m, n, before)
  {
    forall i | 0 <= i < n - m ensures PERSONS.clean(list[m + i], before[i]) {
      BlankIsClean(list[m + i]);
    }
  }

  /** A page after the last hands out the whole list once more when all persons fit on one page with room to spare, and
      otherwise leaves the records of the response as they were; it calls itself current page only if the last page is not
      full. */
  lemma PagesBeyond(list: seq<Fitting>, page: nat, perPage: nat, before: Response<Slot>)
    requires 1 <= perPage <= MAX_PER_PAGE == |before.records| && list != []
    requires page > TotalPage(|list|, perPage)
    ensures
      var r := Respond(Put, list, page, perPage, before);
      if |list| < perPage then r.currentPage == 1 && r == Respond(Put, list, 1, perPage, before)
      else
        && r.records == before.records && r.count == before.count && r.perPage == before.perPage
        && r.totalPage == TotalPage(|list|, perPage)
        && r.currentPage == if |list| % perPage == 0 then before.currentPage else page
  {
    QuotientAndRemainder(|list|, perPage);
  }
}
