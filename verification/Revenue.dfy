/** The revenue report: a summary, and the same payments grouped by time bucket and cut into pages.
  *
  * Money is in cents. `trunc` is the database's `date_trunc` for the chosen unit; `buckets` is the order in which the
  * database returns the groups.
  */
module Revenue {
  import opened Prelude

  datatype Payment = Payment(tenantId: string, status: string, createdAt: int, amount: int)

  datatype Refund = Refund(tenantId: string, status: string, createdAt: int, amount: int)

  datatype Filters = Filters(tenantId: string, status: Option<string>, from: Option<int>, to: Option<int>)

  datatype Summary = Summary(grossRevenue: int, totalRefunded: int, netRevenue: int, paymentCount: nat)

  datatype Row = Row(bucket: int, paymentCount: nat, grossRevenue: int, totalRefunded: int, netRevenue: int)

  datatype Meta = Meta(page: int, limit: int, total: nat, totalPages: int)

  // ---- filters ----

  predicate InRange(at: int, f: Filters) {
    (f.from.None? || f.from.value <= at) && (f.to.None? || at <= f.to.value)
  }

  /** `filters.status || 'COMPLETED'`. */
  function StatusOf(f: Filters): string {
    if f.status.Some? && f.status.value != "" then f.status.value else "COMPLETED"
  }

  predicate Counts(p: Payment, f: Filters) {
    p.tenantId == f.tenantId && p.status == StatusOf(f) && InRange(p.createdAt, f)
  }

  predicate CountsRefund(r: Refund, f: Filters) {
    r.tenantId == f.tenantId && r.status == "COMPLETED" && InRange(r.createdAt, f)
  }

  function Selected(ps: seq<Payment>, f: Filters): seq<Payment> {
    if ps == [] then [] else (if Counts(ps[0], f) then [ps[0]] else []) + Selected(ps[1..], f)
  }

  function SelectedRefunds(rs: seq<Refund>, f: Filters): seq<Refund> {
    if rs == [] then [] else (if CountsRefund(rs[0], f) then [rs[0]] else []) + SelectedRefunds(rs[1..], f)
  }

  // ---- sums ----

  function Gross(ps: seq<Payment>): int {
    if ps == [] then 0 else ps[0].amount + Gross(ps[1..])
  }

  function Refunded(rs: seq<Refund>): int {
    if rs == [] then 0 else rs[0].amount + Refunded(rs[1..])
  }

  function OfBucket(ps: seq<Payment>, trunc: int -> int, b: int): seq<Payment> {
    if ps == [] then []
    else (if trunc(ps[0].createdAt) == b then [ps[0]] else []) + OfBucket(ps[1..], trunc, b)
  }

  function RefundsOf(rs: seq<Refund>, trunc: int -> int, b: int): seq<Refund> {
    if rs == [] then []
    else (if trunc(rs[0].createdAt) == b then [rs[0]] else []) + RefundsOf(rs[1..], trunc, b)
  }

  /** Refunds in buckets outside the given ones. */
  function RefundsElsewhere(rs: seq<Refund>, trunc: int -> int, buckets: seq<int>): seq<Refund> {
    if rs == [] then []
    else (if trunc(rs[0].createdAt) !in buckets then [rs[0]] else []) + RefundsElsewhere(rs[1..], trunc, buckets)
  }

  // ---- the report ----

  function Summarize(ps: seq<Payment>, rs: seq<Refund>, f: Filters): Summary {
    var gross, refunded := Gross(Selected(ps, f)), Refunded(SelectedRefunds(rs, f));
    Summary(gross, refunded, gross - refunded, |Selected(ps, f)|)
  }

  /** GROUP BY bucket ORDER BY bucket: each bucket that holds a selected payment, once, ascending. */
  predicate IsGrouping(buckets: seq<int>, ps: seq<Payment>, trunc: int -> int) {
    && (forall i, j | 0 <= i < j < |buckets| :: buckets[i] < buckets[j])
    && (forall p | p in ps :: trunc(p.createdAt) in buckets)
    && (forall b | b in buckets :: OfBucket(ps, trunc, b) != [])
  }

  function RowOf(ps: seq<Payment>, rs: seq<Refund>, trunc: int -> int, b: int): Row {
    var gross, refunded := Gross(OfBucket(ps, trunc, b)), Refunded(RefundsOf(rs, trunc, b));
    Row(b, |OfBucket(ps, trunc, b)|, gross, refunded, gross - refunded)
  }

  function Rows(ps: seq<Payment>, rs: seq<Refund>, trunc: int -> int, buckets: seq<int>): (r: seq<Row>)
    ensures |r| == |buckets|
    ensures forall i | 0 <= i < |r| :: r[i] == RowOf(ps, rs, trunc, buckets[i])
  {
    seq(|buckets|, i requires 0 <= i < |buckets| => RowOf(ps, rs, trunc, buckets[i]))
  }

  function Min(a: int, b: int): int {
    if a < b then a else b
  }

  /** LIMIT and OFFSET. */
  function Page<T>(xs: seq<T>, page: int, limit: int): seq<T>
    requires page >= 1 && limit >= 1
  {
    var skip := (page - 1) * limit;
    if skip >= |xs| then [] else xs[skip..Min(skip + limit, |xs|)]
  }

  function TotalPages(total: nat, limit: int): int
    requires limit >= 1
  {
    var pages := (total + limit - 1) / limit;
    if pages < 1 then 1 else pages
  }

  function Limit(limit: Option<int>): int {
    Min(if limit.Some? then limit.value else 20, 100)
  }

  /** One row per bucket of the page. */
  method BuildRows(ps: seq<Payment>, rs: seq<Refund>, trunc: int -> int, dataRows: seq<int>, totals: map<int, int>)
    returns (data: seq<Row>)
    requires forall b :: Refunded(RefundsOf(rs, trunc, b)) == if b in totals then totals[b] else 0
    ensures data == Rows(ps, rs, trunc, dataRows)
  {
    data := [];
    for i := 0 to |dataRows|
      invariant |data| == i && forall k | 0 <= k < i :: data[k] == RowOf(ps, rs, trunc, dataRows[k])
    {
      var b := dataRows[i];
      var gross := Gross(OfBucket(ps, trunc, b));
      var refunded := if b in totals then totals[b] else 0;
      data := data + [Row(b, |OfBucket(ps, trunc, b)|, gross, refunded, gross - refunded)];
    }
  }

  /** The map from the buckets that hold refunds to their totals; what it does not list is 0. */
  method BuildRefundMap(rs: seq<Refund>, trunc: int -> int, refundBuckets: seq<int>) returns (totals: map<int, int>)
    requires forall b :: b in refundBuckets <==> RefundsOf(rs, trunc, b) != []
    ensures forall b :: Refunded(RefundsOf(rs, trunc, b)) == if b in totals then totals[b] else 0
  {
    totals := map[];
    for i := 0 to |refundBuckets|
      invariant forall b :: b in totals <==> b in refundBuckets[..i]
      invariant forall b | b in totals :: totals[b] == Refunded(RefundsOf(rs, trunc, b))
    {
      totals := totals[refundBuckets[i] := Refunded(RefundsOf(rs, trunc, refundBuckets[i]))];
    }
  }

  lemma PageOfRows(ps: seq<Payment>, rs: seq<Refund>, trunc: int -> int, buckets: seq<int>, page: int, limit: int)
    requires page >= 1 && limit >= 1
    ensures Page(Rows(ps, rs, trunc, buckets), page, limit) == Rows(ps, rs, trunc, Page(buckets, page, limit))
  {
  }

  /** `getRevenue` with a grouping unit: the refund totals of the page's buckets come from a map built beforehand. */
  method GetRevenue(payments: seq<Payment>, refunds: seq<Refund>, f: Filters, trunc: int -> int, buckets: seq<int>,
                    refundBuckets: seq<int>, page: int, wanted: Option<int>)
    returns (summary: Summary, data: seq<Row>, meta: Meta)
    requires page >= 1 && Limit(wanted) >= 1
    requires IsGrouping(buckets, Selected(payments, f), trunc)
    requires forall b :: b in refundBuckets <==> RefundsOf(SelectedRefunds(refunds, f), trunc, b) != []
    ensures summary == Summarize(payments, refunds, f)
    ensures data == Page(Rows(Selected(payments, f), SelectedRefunds(refunds, f), trunc, buckets), page, Limit(wanted))
    ensures meta == Meta(page, Limit(wanted), |buckets|, TotalPages(|buckets|, Limit(wanted)))
    ensures if wanted.None? then meta.limit == 20
            else meta.limit <= 100 && meta.limit <= wanted.value && meta.limit in {100, wanted.value}
    ensures summary.netRevenue == summary.grossRevenue - summary.totalRefunded
    ensures forall row | row in data :: row.netRevenue == row.grossRevenue - row.totalRefunded
  {
    var limit := Limit(wanted);
    var ps, rs := Selected(payments, f), SelectedRefunds(refunds, f);
    summary := Summarize(payments, refunds, f);
    var dataRows := Page(buckets, page, limit);
    var refundedByBucket := BuildRefundMap(rs, trunc, refundBuckets);
    data := BuildRows(ps, rs, trunc, dataRows, refundedByBucket);
    meta := Meta(page, limit, |buckets|, TotalPages(|buckets|, limit));
    PageOfRows(ps, rs, trunc, buckets, page, limit);
  }

  // ---- pages ----

  /** The first k pages, one after the other. */
  function Pages<T>(xs: seq<T>, k: nat, limit: int): seq<T>
    requires limit >= 1
  {
    if k == 0 then [] else Pages(xs, k - 1, limit) + Page(xs, k, limit)
  }

  lemma NextPage<T>(xs: seq<T>, k: int, limit: int)
    requires k >= 1 && limit >= 1 && (k - 1) * limit >= 0
    ensures var skip := (k - 1) * limit;
            xs[..Min(skip, |xs|)] + Page(xs, k, limit) == xs[..Min(skip + limit, |xs|)]
  {
  }

  lemma {:induction false} PagesAreAPrefix<T>(xs: seq<T>, k: nat, limit: int)
    requires limit >= 1
    ensures k * limit >= 0 && Pages(xs, k, limit) == xs[..Min(k * limit, |xs|)]
    decreases k
  {
    if k > 0 {
      var skip := (k - 1) * limit;
      PagesAreAPrefix(xs, k - 1, limit);
      assert k * limit == skip + limit;
      NextPage(xs, k, limit);
    }
  }

  lemma Monotone(a: int, b: int, c: int)
    requires a <= b && c >= 0
    ensures a * c <= b * c
  {
  }

  lemma PagesReachTheEnd(total: nat, limit: int)
    requires limit >= 1
    ensures TotalPages(total, limit) * limit >= total
  {
    var q, r := (total + limit - 1) / limit, (total + limit - 1) % limit;
    assert q * limit + r == total + limit - 1 && r < limit;
    if q < 1 {
      Monotone(q, 0, limit);
    }
  }

  lemma PagesBeyondAreEmpty<T>(xs: seq<T>, limit: int, later: int)
    requires limit >= 1 && later > TotalPages(|xs|, limit)
    ensures Page(xs, later, limit) == []
  {
    PagesReachTheEnd(|xs|, limit);
    Monotone(TotalPages(|xs|, limit), later - 1, limit);
  }

  /** The pages up to `totalPages` are the whole list, without gaps or repeats, and every later page is empty. */
  lemma PagesAreEverything<T>(xs: seq<T>, limit: int, later: int)
    requires limit >= 1 && later > TotalPages(|xs|, limit)
    ensures Pages(xs, TotalPages(|xs|, limit), limit) == xs && Page(xs, later, limit) == []
  {
    PagesReachTheEnd(|xs|, limit);
    PagesAreAPrefix(xs, TotalPages(|xs|, limit), limit);
    PagesBeyondAreEmpty(xs, limit, later);
  }

  /** How many pages there are: the last one starts within the list, unless there is but one. */
  lemma LastPageStartsWithin(total: nat, limit: int)
    requires limit >= 1
    ensures TotalPages(total, limit) >= 1
    ensures TotalPages(total, limit) > 1 ==> (TotalPages(total, limit) - 1) * limit < total
  {
    var q, r := (total + limit - 1) / limit, (total + limit - 1) % limit;
    assert q * limit + r == total + limit - 1 && 0 <= r;
    assert (q - 1) * limit == q * limit - limit;
  }

  lemma FullPage<T>(xs: seq<T>, limit: int, page: int)
    requires limit >= 1 && page >= 1 && page * limit < |xs|
    ensures |Page(xs, page, limit)| == limit
  {
    var skip := (page - 1) * limit;
    assert page * limit == skip + limit;
    Monotone(0, page - 1, limit);
  }

  /** No page is wasted: each but the last is full, and none is empty unless the list is. */
  lemma PagesAreFull<T>(xs: seq<T>, limit: int, page: int)
    requires limit >= 1 && 1 <= page <= TotalPages(|xs|, limit)
    ensures page < TotalPages(|xs|, limit) ==> |Page(xs, page, limit)| == limit
    ensures Page(xs, page, limit) == [] <==> xs == []
  {
    var last := TotalPages(|xs|, limit);
    LastPageStartsWithin(|xs|, limit);
    if last > 1 {
      Monotone(page - 1, last - 1, limit);
      if page < last {
        Monotone(page, last - 1, limit);
        FullPage(xs, limit, page);
      }
    }
  }

  // ---- conservation ----

  function SumGross(rows: seq<Row>): int {
    if rows == [] then 0 else rows[0].grossRevenue + SumGross(rows[1..])
  }

  function SumCount(rows: seq<Row>): int {
    if rows == [] then 0 else rows[0].paymentCount + SumCount(rows[1..])
  }

  function SumRefunded(rows: seq<Row>): int {
    if rows == [] then 0 else rows[0].totalRefunded + SumRefunded(rows[1..])
  }

  predicate Ascending(buckets: seq<int>) {
    forall i, j | 0 <= i < j < |buckets| :: buckets[i] < buckets[j]
  }

  lemma RowsTail(ps: seq<Payment>, rs: seq<Refund>, trunc: int -> int, buckets: seq<int>)
    requires buckets != []
    ensures Rows(ps, rs, trunc, buckets)[0] == RowOf(ps, rs, trunc, buckets[0])
    ensures Rows(ps, rs, trunc, buckets)[1..] == Rows(ps, rs, trunc, buckets[1..])
  {
  }

  /** One more payment adds its amount and one to exactly the row of its bucket. */
  lemma {:induction false} OneMorePayment(p: Payment, ps: seq<Payment>, rs: seq<Refund>, trunc: int -> int,
      buckets: seq<int>)
    requires Ascending(buckets)
    ensures var more, fewer := Rows([p] + ps, rs, trunc, buckets), Rows(ps, rs, trunc, buckets);
            && SumGross(more) == SumGross(fewer) + (if trunc(p.createdAt) in buckets then p.amount else 0)
            && SumCount(more) == SumCount(fewer) + (if trunc(p.createdAt) in buckets then 1 else 0)
    decreases |buckets|
  {
    if buckets != [] {
      var b := buckets[0];
      OneMorePayment(p, ps, rs, trunc, buckets[1..]);
      assert ([p] + ps)[1..] == ps;
      assert Gross([p] + OfBucket(ps, trunc, b)) == p.amount + Gross(OfBucket(ps, trunc, b)) by {
        assert ([p] + OfBucket(ps, trunc, b))[1..] == OfBucket(ps, trunc, b);
      }
      assert [] + OfBucket(ps, trunc, b) == OfBucket(ps, trunc, b);
      RowsTail([p] + ps, rs, trunc, buckets);
      RowsTail(ps, rs, trunc, buckets);
      assert b !in buckets[1..];
    }
  }

  lemma {:induction false} NoPayments(rs: seq<Refund>, trunc: int -> int, buckets: seq<int>)
    ensures SumGross(Rows([], rs, trunc, buckets)) == 0 && SumCount(Rows([], rs, trunc, buckets)) == 0
    decreases |buckets|
  {
    if buckets != [] {
      RowsTail([], rs, trunc, buckets);
      NoPayments(rs, trunc, buckets[1..]);
    }
  }

  /** Over all rows, gross revenue and payment counts add up to those of the payments whose bucket is listed. */
  lemma {:induction false} PaymentsAddUp(ps: seq<Payment>, rs: seq<Refund>, trunc: int -> int, buckets: seq<int>)
    requires Ascending(buckets) && forall p | p in ps :: trunc(p.createdAt) in buckets
    ensures SumGross(Rows(ps, rs, trunc, buckets)) == Gross(ps) && SumCount(Rows(ps, rs, trunc, buckets)) == |ps|
    decreases |ps|
  {
    if ps == [] {
      NoPayments(rs, trunc, buckets);
    } else {
      assert ps == [ps[0]] + ps[1..];
      OneMorePayment(ps[0], ps[1..], rs, trunc, buckets);
      PaymentsAddUp(ps[1..], rs, trunc, buckets);
    }
  }

  lemma {:induction false} OneMoreRefund(r: Refund, ps: seq<Payment>, rs: seq<Refund>, trunc: int -> int,
      buckets: seq<int>)
    requires Ascending(buckets)
    ensures SumRefunded(Rows(ps, [r] + rs, trunc, buckets))
            == SumRefunded(Rows(ps, rs, trunc, buckets)) + (if trunc(r.createdAt) in buckets then r.amount else 0)
    decreases |buckets|
  {
    if buckets != [] {
      var b := buckets[0];
      OneMoreRefund(r, ps, rs, trunc, buckets[1..]);
      assert ([r] + rs)[1..] == rs;
      assert Refunded([r] + RefundsOf(rs, trunc, b)) == r.amount + Refunded(RefundsOf(rs, trunc, b)) by {
        assert ([r] + RefundsOf(rs, trunc, b))[1..] == RefundsOf(rs, trunc, b);
      }
      assert [] + RefundsOf(rs, trunc, b) == RefundsOf(rs, trunc, b);
      RowsTail(ps, [r] + rs, trunc, buckets);
      RowsTail(ps, rs, trunc, buckets);
      assert b !in buckets[1..];
    }
  }

  lemma {:induction false} NoRefunds(ps: seq<Payment>, trunc: int -> int, buckets: seq<int>)
    ensures SumRefunded(Rows(ps, [], trunc, buckets)) == 0
    decreases |buckets|
  {
    if buckets != [] {
      RowsTail(ps, [], trunc, buckets);
      NoRefunds(ps, trunc, buckets[1..]);
    }
  }

  /** Over all rows, the refunds add up to all refunds but those of buckets without a row. */
  lemma {:induction false} RefundsAddUp(ps: seq<Payment>, rs: seq<Refund>, trunc: int -> int, buckets: seq<int>)
    requires Ascending(buckets)
    ensures SumRefunded(Rows(ps, rs, trunc, buckets)) + Refunded(RefundsElsewhere(rs, trunc, buckets)) == Refunded(rs)
    decreases |rs|
  {
    if rs == [] {
      NoRefunds(ps, trunc, buckets);
    } else {
      assert rs == [rs[0]] + rs[1..];
      OneMoreRefund(rs[0], ps, rs[1..], trunc, buckets);
      RefundsAddUp(ps, rs[1..], trunc, buckets);
      var rest := RefundsElsewhere(rs[1..], trunc, buckets);
      assert ([rs[0]] + rest)[1..] == rest && [] + rest == rest;
    }
  }

  /** Over all pages of the report, gross revenue and payment counts sum to the summary, and the refunds fall short of
    * it by exactly the refunds of buckets that hold no payment. */
  lemma RevenueIsConserved(payments: seq<Payment>, refunds: seq<Refund>, f: Filters, trunc: int -> int,
                           buckets: seq<int>, limit: int)
    requires limit >= 1 && IsGrouping(buckets, Selected(payments, f), trunc)
    ensures var ps, rs := Selected(payments, f), SelectedRefunds(refunds, f);
            var all := Pages(Rows(ps, rs, trunc, buckets), TotalPages(|buckets|, limit), limit);
            var summary := Summarize(payments, refunds, f);
            && SumGross(all) == summary.grossRevenue
            && SumCount(all) == summary.paymentCount
            && SumRefunded(all) == summary.totalRefunded - Refunded(RefundsElsewhere(rs, trunc, buckets))
  {
    var ps, rs := Selected(payments, f), SelectedRefunds(refunds, f);
    PagesAreEverything(Rows(ps, rs, trunc, buckets), limit, TotalPages(|buckets|, limit) + 1);
    PaymentsAddUp(ps, rs, trunc, buckets);
    RefundsAddUp(ps, rs, trunc, buckets);
  }

  // ---- what a report counts ----

  lemma {:induction false} SelectedConcat(a: seq<Payment>, b: seq<Payment>, f: Filters)
    ensures Selected(a + b, f) == Selected(a, f) + Selected(b, f)
  {
    if a == [] {
      assert a + b == b;
    } else {
      var rest, whole := a[1..], a + b;
      var one := if Counts(a[0], f) then [a[0]] else [];
      SelectedConcat(rest, b, f);
      assert whole[0] == a[0] && whole[1..] == rest + b;
      assert Selected(whole, f) == one + Selected(rest + b, f);
      assert Selected(a, f) == one + Selected(rest, f);
    }
  }

  lemma {:induction false} SelectedRefundsConcat(a: seq<Refund>, b: seq<Refund>, f: Filters)
    ensures SelectedRefunds(a + b, f) == SelectedRefunds(a, f) + SelectedRefunds(b, f)
  {
    if a == [] {
      assert a + b == b;
    } else {
      var rest, whole := a[1..], a + b;
      var one := if CountsRefund(a[0], f) then [a[0]] else [];
      SelectedRefundsConcat(rest, b, f);
      assert whole[0] == a[0] && whole[1..] == rest + b;
      assert SelectedRefunds(whole, f) == one + SelectedRefunds(rest + b, f);
      assert SelectedRefunds(a, f) == one + SelectedRefunds(rest, f);
    }
  }

  lemma {:induction false} GrossConcat(a: seq<Payment>, b: seq<Payment>)
    ensures Gross(a + b) == Gross(a) + Gross(b)
  {
    if a == [] {
      assert a + b == b;
    } else {
      GrossConcat(a[1..], b);
      assert (a + b)[1..] == a[1..] + b;
    }
  }

  lemma {:induction false} RefundedConcat(a: seq<Refund>, b: seq<Refund>)
    ensures Refunded(a + b) == Refunded(a) + Refunded(b)
  {
    if a == [] {
      assert a + b == b;
    } else {
      RefundedConcat(a[1..], b);
      assert (a + b)[1..] == a[1..] + b;
    }
  }

  lemma {:induction false} OfBucketConcat(a: seq<Payment>, b: seq<Payment>, trunc: int -> int, at: int)
    ensures OfBucket(a + b, trunc, at) == OfBucket(a, trunc, at) + OfBucket(b, trunc, at)
  {
    if a == [] {
      assert a + b == b;
    } else {
      var rest, whole := a[1..], a + b;
      var one := if trunc(a[0].createdAt) == at then [a[0]] else [];
      OfBucketConcat(rest, b, trunc, at);
      assert whole[0] == a[0] && whole[1..] == rest + b;
      assert OfBucket(whole, trunc, at) == one + OfBucket(rest + b, trunc, at);
      assert OfBucket(a, trunc, at) == one + OfBucket(rest, trunc, at);
    }
  }

  lemma {:induction false} RefundsOfConcat(a: seq<Refund>, b: seq<Refund>, trunc: int -> int, at: int)
    ensures RefundsOf(a + b, trunc, at) == RefundsOf(a, trunc, at) + RefundsOf(b, trunc, at)
  {
    if a == [] {
      assert a + b == b;
    } else {
      var rest, whole := a[1..], a + b;
      var one := if trunc(a[0].createdAt) == at then [a[0]] else [];
      RefundsOfConcat(rest, b, trunc, at);
      assert whole[0] == a[0] && whole[1..] == rest + b;
      assert RefundsOf(whole, trunc, at) == one + RefundsOf(rest + b, trunc, at);
      assert RefundsOf(a, trunc, at) == one + RefundsOf(rest, trunc, at);
    }
  }

  lemma GrossMiddle(a: seq<Payment>, one: seq<Payment>, b: seq<Payment>)
    ensures Gross(a + one + b) == Gross(a + b) + Gross(one)
  {
    GrossConcat(a + one, b);
    GrossConcat(a, one);
    GrossConcat(a, b);
  }

  lemma RefundedMiddle(a: seq<Refund>, one: seq<Refund>, b: seq<Refund>)
    ensures Refunded(a + one + b) == Refunded(a + b) + Refunded(one)
  {
    RefundedConcat(a + one, b);
    RefundedConcat(a, one);
    RefundedConcat(a, b);
  }

  lemma {:induction false} EmptyIffNowhere(ps: seq<Payment>, trunc: int -> int, at: int)
    ensures OfBucket(ps, trunc, at) != [] <==> exists p :: p in ps && trunc(p.createdAt) == at
  {
    if ps != [] {
      EmptyIffNowhere(ps[1..], trunc, at);
      assert forall p :: p in ps <==> p == ps[0] || p in ps[1..];
    }
  }

  /** A grouping lists exactly the buckets that hold a payment. */
  lemma ListedIff(buckets: seq<int>, ps: seq<Payment>, trunc: int -> int, at: int)
    requires IsGrouping(buckets, ps, trunc)
    ensures at in buckets <==> OfBucket(ps, trunc, at) != []
  {
    EmptyIffNowhere(ps, trunc, at);
  }

  function PaymentsOf(ps: seq<Payment>, tenantId: string): seq<Payment> {
    if ps == [] then [] else (if ps[0].tenantId == tenantId then [ps[0]] else []) + PaymentsOf(ps[1..], tenantId)
  }

  function RefundsOfTenant(rs: seq<Refund>, tenantId: string): seq<Refund> {
    if rs == [] then [] else (if rs[0].tenantId == tenantId then [rs[0]] else []) + RefundsOfTenant(rs[1..], tenantId)
  }

  lemma {:induction false} OursAreSelected(ps: seq<Payment>, f: Filters)
    ensures Selected(PaymentsOf(ps, f.tenantId), f) == Selected(ps, f)
  {
    if ps != [] {
      OursAreSelected(ps[1..], f);
      SelectedConcat(if ps[0].tenantId == f.tenantId then [ps[0]] else [], PaymentsOf(ps[1..], f.tenantId), f);
    }
  }

  lemma {:induction false} OurRefundsAreSelected(rs: seq<Refund>, f: Filters)
    ensures SelectedRefunds(RefundsOfTenant(rs, f.tenantId), f) == SelectedRefunds(rs, f)
  {
    if rs != [] {
      OurRefundsAreSelected(rs[1..], f);
      SelectedRefundsConcat(if rs[0].tenantId == f.tenantId then [rs[0]] else [],
                            RefundsOfTenant(rs[1..], f.tenantId), f);
    }
  }

  /** The rows of all pages, for the buckets that the database lists. */
  function AllRows(payments: seq<Payment>, refunds: seq<Refund>, f: Filters, trunc: int -> int, buckets: seq<int>)
    : (r: seq<Row>)
    ensures |r| == |buckets|
  {
    Rows(Selected(payments, f), SelectedRefunds(refunds, f), trunc, buckets)
  }

  predicate IsReportGrouping(buckets: seq<int>, payments: seq<Payment>, f: Filters, trunc: int -> int) {
    IsGrouping(buckets, Selected(payments, f), trunc)
  }

  lemma SelectedAround(a: seq<Payment>, p: Payment, b: seq<Payment>, f: Filters)
    ensures Selected(a + [p] + b, f) == Selected(a, f) + (if Counts(p, f) then [p] else []) + Selected(b, f)
    ensures Selected(a + b, f) == Selected(a, f) + Selected(b, f)
  {
    SelectedConcat(a + [p], b, f);
    SelectedConcat(a, [p], f);
    SelectedConcat(a, b, f);
    assert Selected([p], f) == if Counts(p, f) then [p] else [];
  }

  lemma InsertedPayment(a: seq<Payment>, p: Payment, b: seq<Payment>, refunds: seq<Refund>, f: Filters)
    ensures !Counts(p, f) ==> Selected(a + [p] + b, f) == Selected(a + b, f)
    ensures Summarize(a + [p] + b, refunds, f).grossRevenue
            == Summarize(a + b, refunds, f).grossRevenue + (if Counts(p, f) then p.amount else 0)
    ensures Summarize(a + [p] + b, refunds, f).paymentCount
            == Summarize(a + b, refunds, f).paymentCount + (if Counts(p, f) then 1 else 0)
  {
    SelectedAround(a, p, b, f);
    GrossMiddle(Selected(a, f), if Counts(p, f) then [p] else [], Selected(b, f));
  }

  function PlusPayment(row: Row, p: Payment, here: bool): Row {
    if !here then row
    else Row(row.bucket, row.paymentCount + 1, row.grossRevenue + p.amount, row.totalRefunded,
             row.netRevenue + p.amount)
  }

  lemma BucketAround(pre: seq<Payment>, one: seq<Payment>, post: seq<Payment>, trunc: int -> int, at: int)
    ensures Gross(OfBucket(pre + one + post, trunc, at))
            == Gross(OfBucket(pre + post, trunc, at)) + Gross(OfBucket(one, trunc, at))
    ensures |OfBucket(pre + one + post, trunc, at)|
            == |OfBucket(pre + post, trunc, at)| + |OfBucket(one, trunc, at)|
  {
    OfBucketConcat(pre + one, post, trunc, at);
    OfBucketConcat(pre, one, trunc, at);
    OfBucketConcat(pre, post, trunc, at);
    GrossMiddle(OfBucket(pre, trunc, at), OfBucket(one, trunc, at), OfBucket(post, trunc, at));
  }

  lemma InsertedInRow(a: seq<Payment>, p: Payment, b: seq<Payment>, refunds: seq<Refund>, f: Filters,
                      trunc: int -> int, at: int)
    ensures RowOf(Selected(a + [p] + b, f), SelectedRefunds(refunds, f), trunc, at)
            == PlusPayment(RowOf(Selected(a + b, f), SelectedRefunds(refunds, f), trunc, at), p,
                           Counts(p, f) && trunc(p.createdAt) == at)
  {
    var pre, post, one := Selected(a, f), Selected(b, f), if Counts(p, f) then [p] else [];
    SelectedAround(a, p, b, f);
    BucketAround(pre, one, post, trunc, at);
    assert OfBucket(one, trunc, at) == if Counts(p, f) && trunc(p.createdAt) == at then [p] else [];
  }

  lemma InsertedBucket(a: seq<Payment>, p: Payment, b: seq<Payment>, f: Filters, trunc: int -> int,
                       buckets: seq<int>, others: seq<int>, at: int)
    requires IsReportGrouping(buckets, a + [p] + b, f, trunc) && IsReportGrouping(others, a + b, f, trunc)
    ensures at in buckets <==> at in others || (Counts(p, f) && at == trunc(p.createdAt))
  {
    SelectedAround(a, p, b, f);
    ListedIff(buckets, Selected(a + [p] + b, f), trunc, at);
    ListedIff(others, Selected(a + b, f), trunc, at);
    InsertedInRow(a, p, b, [], f, trunc, at);
  }

  lemma SelectedRefundsAround(a: seq<Refund>, r: Refund, b: seq<Refund>, f: Filters)
    ensures SelectedRefunds(a + [r] + b, f)
            == SelectedRefunds(a, f) + (if CountsRefund(r, f) then [r] else []) + SelectedRefunds(b, f)
    ensures SelectedRefunds(a + b, f) == SelectedRefunds(a, f) + SelectedRefunds(b, f)
  {
    SelectedRefundsConcat(a + [r], b, f);
    SelectedRefundsConcat(a, [r], f);
    SelectedRefundsConcat(a, b, f);
    assert SelectedRefunds([r], f) == if CountsRefund(r, f) then [r] else [];
  }

  lemma InsertedRefund(payments: seq<Payment>, a: seq<Refund>, r: Refund, b: seq<Refund>, f: Filters)
    ensures Summarize(payments, a + [r] + b, f).totalRefunded
            == Summarize(payments, a + b, f).totalRefunded + (if CountsRefund(r, f) then r.amount else 0)
  {
    SelectedRefundsAround(a, r, b, f);
    RefundedMiddle(SelectedRefunds(a, f), if CountsRefund(r, f) then [r] else [], SelectedRefunds(b, f));
  }

  lemma RefundInRow(a: seq<Refund>, r: Refund, b: seq<Refund>, f: Filters, trunc: int -> int, at: int)
    ensures Refunded(RefundsOf(SelectedRefunds(a + [r] + b, f), trunc, at))
            == Refunded(RefundsOf(SelectedRefunds(a + b, f), trunc, at))
               + (if CountsRefund(r, f) && trunc(r.createdAt) == at then r.amount else 0)
  {
    var pre, post, one := SelectedRefunds(a, f), SelectedRefunds(b, f), if CountsRefund(r, f) then [r] else [];
    SelectedRefundsAround(a, r, b, f);
    RefundsOfConcat(pre + one, post, trunc, at);
    RefundsOfConcat(pre, one, trunc, at);
    RefundsOfConcat(pre, post, trunc, at);
    assert RefundsOf(one, trunc, at) == if CountsRefund(r, f) && trunc(r.createdAt) == at then [r] else [];
    RefundedMiddle(RefundsOf(pre, trunc, at), RefundsOf(one, trunc, at), RefundsOf(post, trunc, at));
  }

  /** One further payment, wherever the table holds it, moves the summary and its bucket's row by its amount and by one
    * if tenant, status and both bounds fit, and brings its bucket; otherwise the report stays as it is. */
  lemma OnePaymentMore(a: seq<Payment>, p: Payment, b: seq<Payment>, refunds: seq<Refund>, f: Filters,
                       trunc: int -> int, buckets: seq<int>, fits: bool)
    requires fits <==> && p.tenantId == f.tenantId
                       && p.status == (if f.status == None || f.status == Some("") then "COMPLETED" else f.status.value)
                       && (f.from.Some? ==> f.from.value <= p.createdAt)
                       && (f.to.Some? ==> p.createdAt <= f.to.value)
    ensures var more, fewer := Summarize(a + [p] + b, refunds, f), Summarize(a + b, refunds, f);
            && more.grossRevenue == fewer.grossRevenue + (if fits then p.amount else 0)
            && more.paymentCount == fewer.paymentCount + (if fits then 1 else 0)
            && more.totalRefunded == fewer.totalRefunded
    ensures var more, fewer := AllRows(a + [p] + b, refunds, f, trunc, buckets),
                               AllRows(a + b, refunds, f, trunc, buckets);
            forall i | 0 <= i < |buckets| ::
              var here := fits && trunc(p.createdAt) == buckets[i];
              && more[i].bucket == fewer[i].bucket == buckets[i]
              && more[i].grossRevenue == fewer[i].grossRevenue + (if here then p.amount else 0)
              && more[i].paymentCount == fewer[i].paymentCount + (if here then 1 else 0)
              && more[i].totalRefunded == fewer[i].totalRefunded
    ensures forall others, at |
              IsReportGrouping(buckets, a + [p] + b, f, trunc) && IsReportGrouping(others, a + b, f, trunc) ::
              at in buckets <==> at in others || (fits && at == trunc(p.createdAt))
    ensures !fits ==>
              && Summarize(a + [p] + b, refunds, f) == Summarize(a + b, refunds, f)
              && AllRows(a + [p] + b, refunds, f, trunc, buckets) == AllRows(a + b, refunds, f, trunc, buckets)
              && (IsReportGrouping(buckets, a + [p] + b, f, trunc) <==> IsReportGrouping(buckets, a + b, f, trunc))
  {
    assert fits == Counts(p, f);
    InsertedPayment(a, p, b, refunds, f);
    forall i | 0 <= i < |buckets|
      ensures RowOf(Selected(a + [p] + b, f), SelectedRefunds(refunds, f), trunc, buckets[i])
              == PlusPayment(RowOf(Selected(a + b, f), SelectedRefunds(refunds, f), trunc, buckets[i]), p,
                             Counts(p, f) && trunc(p.createdAt) == buckets[i])
    {
      InsertedInRow(a, p, b, refunds, f, trunc, buckets[i]);
    }
    forall others, at | IsReportGrouping(buckets, a + [p] + b, f, trunc) && IsReportGrouping(others, a + b, f, trunc)
      ensures at in buckets <==> at in others || (Counts(p, f) && at == trunc(p.createdAt))
    {
      InsertedBucket(a, p, b, f, trunc, buckets, others, at);
    }
  }

  /** So does one further refund; its status is always that of a completed refund, and it lists no bucket. */
  lemma OneRefundMore(payments: seq<Payment>, a: seq<Refund>, r: Refund, b: seq<Refund>, f: Filters,
                      trunc: int -> int, buckets: seq<int>, fits: bool)
    requires fits <==> && r.tenantId == f.tenantId && r.status == "COMPLETED"
                       && (f.from.Some? ==> f.from.value <= r.createdAt)
                       && (f.to.Some? ==> r.createdAt <= f.to.value)
    ensures var more, fewer := Summarize(payments, a + [r] + b, f), Summarize(payments, a + b, f);
            && more.totalRefunded == fewer.totalRefunded + (if fits then r.amount else 0)
            && more.grossRevenue == fewer.grossRevenue && more.paymentCount == fewer.paymentCount
    ensures var more, fewer := AllRows(payments, a + [r] + b, f, trunc, buckets),
                               AllRows(payments, a + b, f, trunc, buckets);
            forall i | 0 <= i < |buckets| ::
              && more[i].totalRefunded
                 == fewer[i].totalRefunded + (if fits && trunc(r.createdAt) == buckets[i] then r.amount else 0)
              && more[i].grossRevenue == fewer[i].grossRevenue && more[i].paymentCount == fewer[i].paymentCount
  {
    InsertedRefund(payments, a, r, b, f);
    forall i | 0 <= i < |buckets|
      ensures RowOf(Selected(payments, f), SelectedRefunds(a + [r] + b, f), trunc, buckets[i]).totalRefunded
              == RowOf(Selected(payments, f), SelectedRefunds(a + b, f), trunc, buckets[i]).totalRefunded
                 + (if CountsRefund(r, f) && trunc(r.createdAt) == buckets[i] then r.amount else 0)
    {
      RefundInRow(a, r, b, f, trunc, buckets[i]);
    }
  }

  /** With OnePaymentMore and OneRefundMore, the other half of an induction over the tables. */
  lemma NothingIsZero(f: Filters, trunc: int -> int, buckets: seq<int>, i: nat)
    ensures Summarize([], [], f) == Summary(0, 0, 0, 0)
    ensures IsReportGrouping(buckets, [], f, trunc) <==> buckets == []
    ensures i < |buckets| ==> AllRows([], [], f, trunc, buckets)[i] == Row(buckets[i], 0, 0, 0, 0)
  {
    assert buckets == [] || buckets[0] in buckets;
  }

  /** What other tenants pay and refund, however much and wherever it stands in the tables, changes nothing. */
  lemma OtherTenantsAreInvisible(payments: seq<Payment>, refunds: seq<Refund>, f: Filters, trunc: int -> int,
                                 buckets: seq<int>)
    ensures var ours, ourRefunds := PaymentsOf(payments, f.tenantId), RefundsOfTenant(refunds, f.tenantId);
            && Summarize(payments, refunds, f) == Summarize(ours, ourRefunds, f)
            && AllRows(payments, refunds, f, trunc, buckets) == AllRows(ours, ourRefunds, f, trunc, buckets)
            && (IsReportGrouping(buckets, payments, f, trunc) <==> IsReportGrouping(buckets, ours, f, trunc))
  {
    OursAreSelected(payments, f);
    OurRefundsAreSelected(refunds, f);
  }
}
