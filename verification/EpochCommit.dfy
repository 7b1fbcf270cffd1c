/** Binding a certificate to sealed pipeline evidence, with the int64 receipt sums checked exactly. */
module EpochCommit {
  import opened RowModel
  import opened Progress
  import opened Epochs
  import opened Order
  import opened Certificates
  import SchemaEvolution
  import P = EpochPipeline
  import I = EpochInvariant
  import T = EpochTheorem

  /** A certificate beside the completion evidence of its epoch and the layouts bound to that evidence. */
  datatype Commit = Commit(certificate: Certificate, completion: P.Completion, layouts: Option<SchemaEvolution.Layouts>)

  // ---- receipt sums ----

  function RowSumTo(receipts: seq<Receipt>, n: nat): int
    requires n <= |receipts|
  {
    if n == 0 then 0 else RowSumTo(receipts, n - 1) + receipts[n - 1].rows
  }

  function ByteSumTo(receipts: seq<Receipt>, n: nat): int
    requires n <= |receipts|
  {
    if n == 0 then 0 else ByteSumTo(receipts, n - 1) + receipts[n - 1].bytes
  }

  /** The receipts of one resource among the first n. */
  function ForTo(receipts: seq<Receipt>, r: Resource, n: nat): seq<Receipt>
    requires n <= |receipts|
  {
    if n == 0 then []
    else if receipts[n - 1].resource == r then ForTo(receipts, r, n - 1) + [receipts[n - 1]]
    else ForTo(receipts, r, n - 1)
  }

  function RowSum(receipts: seq<Receipt>): int { RowSumTo(receipts, |receipts|) }

  function ByteSum(receipts: seq<Receipt>): int { ByteSumTo(receipts, |receipts|) }

  function ReceiptsFor(receipts: seq<Receipt>, r: Resource): seq<Receipt> { ForTo(receipts, r, |receipts|) }

  function Sums(receipts: seq<Receipt>): Totals { Totals(RowSum(receipts), ByteSum(receipts)) }

  ghost predicate NonNegative(receipts: seq<Receipt>) {
    forall i :: 0 <= i < |receipts| ==> receipts[i].rows >= 0 && receipts[i].bytes >= 0
  }

  ghost predicate FieldsFit(receipts: seq<Receipt>) {
    forall i :: 0 <= i < |receipts| ==> IsInt64(receipts[i].rows) && IsInt64(receipts[i].bytes)
  }

  /** No receipt is negative, the receipts sum to the totals, and resource by resource to the completion's; sums do not
      wrap. */
  ghost predicate ReceiptsMatch(receipts: seq<Receipt>, total: Totals, resources: map<Resource, Totals>) {
    NonNegative(receipts) && Sums(receipts) == total && forall r :: Expected(receipts, resources, r)
  }

  /** A resource has receipts exactly when the completion has totals for it, and they sum to those totals. */
  ghost predicate Expected(receipts: seq<Receipt>, resources: map<Resource, Totals>, r: Resource) {
    && (r in resources <==> ReceiptsFor(receipts, r) != [])
    && (r in resources ==> resources[r] == Sums(ReceiptsFor(receipts, r)))
  }

  lemma {:induction false} SumsPrefix(receipts: seq<Receipt>, more: seq<Receipt>, n: nat)
    requires receipts <= more && n <= |receipts|
    ensures RowSumTo(more, n) == RowSumTo(receipts, n) && ByteSumTo(more, n) == ByteSumTo(receipts, n)
  {
    if n > 0 { SumsPrefix(receipts, more, n - 1); }
  }

  lemma SumsAppend(receipts: seq<Receipt>, x: Receipt)
    ensures Sums(receipts + [x]) == Totals(RowSum(receipts) + x.rows, ByteSum(receipts) + x.bytes)
  {
    SumsPrefix(receipts, receipts + [x], |receipts|);
  }

  lemma {:induction false} SumsGrow(receipts: seq<Receipt>, k: nat, n: nat)
    requires NonNegative(receipts) && k <= n <= |receipts|
    ensures 0 <= RowSumTo(receipts, k) <= RowSumTo(receipts, n) && 0 <= ByteSumTo(receipts, k) <= ByteSumTo(receipts, n)
  {
    if n > 0 { SumsGrow(receipts, if k < n then k else k - 1, n - 1); }
  }

  function Recorded(m: map<Resource, Totals>, r: Resource): Totals { if r in m then m[r] else Totals(0, 0) }

  /** What is recorded for a resource is the sum of its first n receipts, no larger than the running sums. */
  ghost predicate TallyAt(receipts: seq<Receipt>, n: nat, actual: map<Resource, Totals>, r: Resource)
    requires n <= |receipts|
  {
    && (r in actual <==> ForTo(receipts, r, n) != []) && Recorded(actual, r) == Sums(ForTo(receipts, r, n))
    && 0 <= Recorded(actual, r).rows <= RowSumTo(receipts, n)
    && 0 <= Recorded(actual, r).bytes <= ByteSumTo(receipts, n)
  }

  ghost predicate Tallies(receipts: seq<Receipt>, n: nat, actual: map<Resource, Totals>)
    requires n <= |receipts|
  {
    forall r :: TallyAt(receipts, n, actual, r)
  }

  lemma TallyNext(receipts: seq<Receipt>, n: nat, actual: map<Resource, Totals>, r: Resource)
    requires n < |receipts| && TallyAt(receipts, n, actual, r) && receipts[n].rows >= 0 && receipts[n].bytes >= 0
    ensures var x := receipts[n];
            var t := Recorded(actual, x.resource);
            TallyAt(receipts, n + 1, actual[x.resource := Totals(t.rows + x.rows, t.bytes + x.bytes)], r)
  {
    SumsAppend(ForTo(receipts, r, n), receipts[n]);
  }

  lemma TalliesNext(receipts: seq<Receipt>, n: nat, actual: map<Resource, Totals>)
    requires n < |receipts| && Tallies(receipts, n, actual) && receipts[n].rows >= 0 && receipts[n].bytes >= 0
    ensures var x := receipts[n];
            var t := Recorded(actual, x.resource);
            Tallies(receipts, n + 1, actual[x.resource := Totals(t.rows + x.rows, t.bytes + x.bytes)])
  {
    var x := receipts[n];
    var t := Recorded(actual, x.resource);
    var m, next := n + 1, actual[x.resource := Totals(t.rows + x.rows, t.bytes + x.bytes)];
    forall r ensures TallyAt(receipts, m, next, r) {
      assert TallyAt(receipts, n, actual, r);
      TallyNext(receipts, n, actual, r);
    }
  }

  lemma NoWrap(t: Totals, rows: int, bytes: int)
    requires IsInt64(t.rows + rows) && IsInt64(t.bytes + bytes)
    ensures Plus(t, rows, bytes) == Totals(t.rows + rows, t.bytes + bytes)
  {}

  /** A negative receipt, or a running sum past the range, decides the outcome whatever follows. */
  lemma Refuted(receipts: seq<Receipt>, k: nat)
    requires k < |receipts|
    requires receipts[k].rows < 0 || receipts[k].bytes < 0 || RowSumTo(receipts, k) + receipts[k].rows > MAX_INT64
             || ByteSumTo(receipts, k) + receipts[k].bytes > MAX_INT64
    ensures !(NonNegative(receipts) && IsInt64(RowSum(receipts)) && IsInt64(ByteSum(receipts)))
  {
    if NonNegative(receipts) { SumsGrow(receipts, k + 1, |receipts|); }
  }

  /** The accumulating loop: none when a receipt is negative or a running sum would pass the int64 range. */
  method Accumulate(receipts: seq<Receipt>) returns (r: Option<(Totals, map<Resource, Totals>)>)
    requires FieldsFit(receipts)
    ensures r.Some? <==> NonNegative(receipts) && IsInt64(RowSum(receipts)) && IsInt64(ByteSum(receipts))
    ensures r.Some? ==> r.value.0 == Sums(receipts) && Tallies(receipts, |receipts|, r.value.1)
  {
    var rows, bytes, actual: map<Resource, Totals> := 0, 0, map[];
    for k := 0 to |receipts|
      invariant forall i :: 0 <= i < k ==> receipts[i].rows >= 0 && receipts[i].bytes >= 0
      invariant 0 <= rows == RowSumTo(receipts, k) <= MAX_INT64 && 0 <= bytes == ByteSumTo(receipts, k) <= MAX_INT64
      invariant Tallies(receipts, k, actual)
    {
      var x := receipts[k];
      if x.rows < 0 || x.bytes < 0 || x.rows > MAX_INT64 - rows || x.bytes > MAX_INT64 - bytes {
        Refuted(receipts, k);
        return None;
      }
      TalliesNext(receipts, k, actual);
      assert TallyAt(receipts, k, actual, x.resource);
      NoWrap(Recorded(actual, x.resource), x.rows, x.bytes);
      rows, bytes := Wrap64(rows + x.rows), Wrap64(bytes + x.bytes);
      actual := actual[x.resource := Plus(Recorded(actual, x.resource), x.rows, x.bytes)];
    }
    return Some((Totals(rows, bytes), actual));
  }

  /** The receipt half of ValidateCompletion. */
  method CheckReceipts(receipts: seq<Receipt>, total: Totals, resources: map<Resource, Totals>) returns (ok: bool)
    requires FieldsFit(receipts) && IsInt64(total.rows) && IsInt64(total.bytes)
    ensures ok == ReceiptsMatch(receipts, total, resources)
  {
    var sums := Accumulate(receipts);
    if sums.None? { return false; }
    var actual := sums.value.1;
    MatchExactly(receipts, total, resources, actual);
    if |actual| != |resources| { return false; }
    var todo := resources.Keys;
    while todo != {}
      invariant todo <= resources.Keys
      invariant forall r :: r in resources.Keys - todo ==> r in actual && actual[r] == resources[r]
      decreases |todo|
    {
      var r :| r in todo;
      todo := todo - {r};
      if r !in actual || actual[r] != resources[r] { return false; }
    }
    SameKeys(resources.Keys, actual.Keys);
    return sums.value.0 == total;
  }

  lemma MatchExactly(receipts: seq<Receipt>, total: Totals, resources: map<Resource, Totals>,
      actual: map<Resource, Totals>)
    requires NonNegative(receipts) && Tallies(receipts, |receipts|, actual)
    ensures ReceiptsMatch(receipts, total, resources) <==> Sums(receipts) == total && actual == resources
  {
    forall r
      ensures Expected(receipts, resources, r) <==>
                (r in actual <==> r in resources) && (r in resources ==> resources[r] == actual[r])
    {
      assert TallyAt(receipts, |receipts|, actual, r);
    }
  }

  lemma SameKeys(a: set<Resource>, b: set<Resource>)
    requires a <= b && |a| == |b|
    ensures a == b
  {
    assert |b - a| == |b| - |a|;
    assert b == a + (b - a);
  }

  // ---- ordering and splitting ----

  lemma {:induction false} ForPrefix(receipts: seq<Receipt>, more: seq<Receipt>, r: Resource, n: nat)
    requires receipts <= more && n <= |receipts|
    ensures ForTo(more, r, n) == ForTo(receipts, r, n)
  {
    if n > 0 { ForPrefix(receipts, more, r, n - 1); }
  }

  lemma {:induction false} ForConcatTo(a: seq<Receipt>, b: seq<Receipt>, r: Resource, n: nat)
    requires n <= |b|
    ensures ForTo(a + b, r, |a| + n) == ReceiptsFor(a, r) + ForTo(b, r, n)
  {
    if n == 0 {
      ForPrefix(a, a + b, r, |a|);
    } else {
      ForConcatTo(a, b, r, n - 1);
      assert (a + b)[|a| + n - 1] == b[n - 1];
    }
  }

  lemma ForConcat(a: seq<Receipt>, b: seq<Receipt>, r: Resource)
    ensures ReceiptsFor(a + b, r) == ReceiptsFor(a, r) + ReceiptsFor(b, r)
  {
    ForConcatTo(a, b, r, |b|);
  }

  lemma {:induction false} SumsConcatTo(a: seq<Receipt>, b: seq<Receipt>, n: nat)
    requires n <= |b|
    ensures RowSumTo(a + b, |a| + n) == RowSum(a) + RowSumTo(b, n)
    ensures ByteSumTo(a + b, |a| + n) == ByteSum(a) + ByteSumTo(b, n)
  {
    if n == 0 {
      SumsPrefix(a, a + b, |a|);
    } else {
      SumsConcatTo(a, b, n - 1);
      assert (a + b)[|a| + n - 1] == b[n - 1];
    }
  }

  lemma SumsConcat(a: seq<Receipt>, b: seq<Receipt>)
    ensures Sums(a + b) == Totals(RowSum(a) + RowSum(b), ByteSum(a) + ByteSum(b))
  {
    SumsConcatTo(a, b, |b|);
  }

  lemma SumsAround(a: seq<Receipt>, b: seq<Receipt>, c: seq<Receipt>)
    ensures Sums(a + b + c) == Totals(RowSum(a) + RowSum(b) + RowSum(c), ByteSum(a) + ByteSum(b) + ByteSum(c))
  {
    SumsConcat(a, b);
    SumsConcat(a + b, c);
  }

  ghost predicate SameFor(a: seq<Receipt>, b: seq<Receipt>, r: Resource) {
    (ReceiptsFor(a, r) == [] <==> ReceiptsFor(b, r) == []) && Sums(ReceiptsFor(a, r)) == Sums(ReceiptsFor(b, r))
  }

  /** Receipts the check cannot tell apart: the same resources, each with the same sums. */
  ghost predicate SameTallies(a: seq<Receipt>, b: seq<Receipt>) {
    NonNegative(a) == NonNegative(b) && Sums(a) == Sums(b) && forall r :: SameFor(a, b, r)
  }

  lemma TalliesMatch(a: seq<Receipt>, b: seq<Receipt>, total: Totals, resources: map<Resource, Totals>)
    requires SameTallies(a, b)
    ensures ReceiptsMatch(a, total, resources) <==> ReceiptsMatch(b, total, resources)
  {
    forall r ensures Expected(a, resources, r) <==> Expected(b, resources, r) { assert SameFor(a, b, r); }
  }

  lemma NonNegativeAround(a: seq<Receipt>, b: seq<Receipt>, c: seq<Receipt>)
    ensures NonNegative(a + b + c) <==> NonNegative(a) && NonNegative(b) && NonNegative(c)
  {
    var s := a + b + c;
    assert forall i :: 0 <= i < |a| ==> s[i] == a[i];
    assert forall i :: 0 <= i < |b| ==> s[|a| + i] == b[i];
    assert forall i :: 0 <= i < |c| ==> s[|a| + |b| + i] == c[i];
  }

  /** Replacing a stretch of receipts by one with the same tallies keeps the tallies: the check ignores order and
      splitting. */
  lemma Replaced(a: seq<Receipt>, x: seq<Receipt>, y: seq<Receipt>, c: seq<Receipt>)
    requires SameTallies(x, y)
    ensures SameTallies(a + x + c, a + y + c)
  {
    NonNegativeAround(a, x, c);
    NonNegativeAround(a, y, c);
    SumsAround(a, x, c);
    SumsAround(a, y, c);
    forall r ensures SameFor(a + x + c, a + y + c, r) {
      assert SameFor(x, y, r);
      ForConcat(a, x, r);
      ForConcat(a + x, c, r);
      ForConcat(a, y, r);
      ForConcat(a + y, c, r);
      SumsAround(ReceiptsFor(a, r), ReceiptsFor(x, r), ReceiptsFor(c, r));
      SumsAround(ReceiptsFor(a, r), ReceiptsFor(y, r), ReceiptsFor(c, r));
    }
  }

  lemma Single(x: Receipt, r: Resource)
    ensures ReceiptsFor([x], r) == (if x.resource == r then [x] else []) && Sums([x]) == Totals(x.rows, x.bytes)
  {
    var one := [x];
    assert RowSumTo(one, 0) == 0 && ByteSumTo(one, 0) == 0 && ForTo(one, r, 0) == [];
  }

  lemma TalliesThrough(a: seq<Receipt>, b: seq<Receipt>, c: seq<Receipt>)
    requires SameTallies(a, b) && SameTallies(b, c)
    ensures SameTallies(a, c)
  {
    forall r ensures SameFor(a, c, r) { assert SameFor(a, b, r) && SameFor(b, c, r); }
  }

  lemma CommutedFor(a: seq<Receipt>, b: seq<Receipt>, r: Resource)
    ensures SameFor(a + b, b + a, r)
  {
    ForConcat(a, b, r);
    ForConcat(b, a, r);
    SumsConcat(ReceiptsFor(a, r), ReceiptsFor(b, r));
    SumsConcat(ReceiptsFor(b, r), ReceiptsFor(a, r));
  }

  lemma Commuted(a: seq<Receipt>, b: seq<Receipt>)
    ensures SameTallies(a + b, b + a)
  {
    NonNegativeAround([], a, b);
    NonNegativeAround([], b, a);
    assert [] + a + b == a + b && [] + b + a == b + a;
    SumsConcat(a, b);
    SumsConcat(b, a);
    forall r ensures SameFor(a + b, b + a, r) { CommutedFor(a, b, r); }
  }

  /** A receipt moves to the front. */
  lemma MovedFirst(b: seq<Receipt>, k: nat)
    requires k < |b|
    ensures SameTallies([b[k]] + (b[..k] + b[k + 1..]), b)
  {
    Commuted([b[k]], b[..k]);
    Replaced([], [b[k]] + b[..k], b[..k] + [b[k]], b[k + 1..]);
    assert [] + ([b[k]] + b[..k]) + b[k + 1..] == [b[k]] + (b[..k] + b[k + 1..]);
    assert [] + (b[..k] + [b[k]]) + b[k + 1..] == b;
  }

  lemma Without(b: seq<Receipt>, k: nat)
    requires k < |b|
    ensures multiset(b[..k] + b[k + 1..]) == multiset(b) - multiset{b[k]}
  {
    assert b == b[..k] + [b[k]] + b[k + 1..];
  }

  lemma {:induction false} Permuted(a: seq<Receipt>, b: seq<Receipt>)
    requires multiset(a) == multiset(b)
    ensures SameTallies(a, b)
  {
    if a == [] {
      assert |multiset(a)| == |a| && |multiset(b)| == |b|;
    } else {
      assert a[0] in multiset(b);
      var k :| 0 <= k < |b| && b[k] == a[0];
      var rest := b[..k] + b[k + 1..];
      Without(b, k);
      assert a == [a[0]] + a[1..];
      Permuted(a[1..], rest);
      Replaced([a[0]], a[1..], rest, []);
      assert [a[0]] + a[1..] + [] == a && [a[0]] + rest + [] == [b[k]] + rest;
      MovedFirst(b, k);
      TalliesThrough(a, [b[k]] + rest, b);
    }
  }

  /** The check ignores the order of receipts. */
  lemma AnyOrder(a: seq<Receipt>, b: seq<Receipt>, total: Totals, resources: map<Resource, Totals>)
    requires multiset(a) == multiset(b)
    ensures ReceiptsMatch(a, total, resources) <==> ReceiptsMatch(b, total, resources)
  {
    Permuted(a, b);
    TalliesMatch(a, b, total, resources);
  }

  ghost predicate AllOf(receipts: seq<Receipt>, r: Resource) {
    forall i :: 0 <= i < |receipts| ==> receipts[i].resource == r
  }

  lemma {:induction false} AllFor(receipts: seq<Receipt>, r: Resource, s: Resource, n: nat)
    requires n <= |receipts| && AllOf(receipts, r)
    ensures ForTo(receipts, s, n) == if r == s then receipts[..n] else []
  {
    if n > 0 {
      AllFor(receipts, r, s, n - 1);
      assert receipts[..n] == receipts[..n - 1] + [receipts[n - 1]];
    }
  }

  /** Receipts of one resource, split or merged in any way. */
  ghost predicate Regrouped(x: seq<Receipt>, y: seq<Receipt>, r: Resource) {
    x != [] && y != [] && AllOf(x, r) && AllOf(y, r) && NonNegative(x) && NonNegative(y) && Sums(x) == Sums(y)
  }

  lemma RegroupedTallies(x: seq<Receipt>, y: seq<Receipt>, r: Resource)
    requires Regrouped(x, y, r)
    ensures SameTallies(x, y)
  {
    forall s ensures SameFor(x, y, s) {
      AllFor(x, r, s, |x|);
      AllFor(y, r, s, |y|);
      assert x[..|x|] == x && y[..|y|] == y;
    }
  }

  /** And it ignores how a resource's counts are split over its receipts, wherever they stand in the list. */
  lemma AnySplit(a: seq<Receipt>, x: seq<Receipt>, y: seq<Receipt>, c: seq<Receipt>, r: Resource, total: Totals,
      resources: map<Resource, Totals>)
    requires Regrouped(x, y, r)
    ensures ReceiptsMatch(a + x + c, total, resources) <==> ReceiptsMatch(a + y + c, total, resources)
  {
    RegroupedTallies(x, y, r);
    Replaced(a, x, y, c);
    TalliesMatch(a + x + c, a + y + c, total, resources);
  }

  // ---- the whole check ----

  /** What ValidateCompletion accepts; comparing JSON of canonical coverage is comparing the coverage. */
  ghost predicate CompletionOk(r: Resolver, c: Commit) {
    && c.certificate.layouts == c.layouts && ValidRef(c.certificate.ref) && c.certificate.coverage.claims == []
    && c.completion.ref == c.certificate.ref && CanonicalCoverage(r, c.certificate.coverage).Some?
    && CanonicalCoverage(r, Coverage(c.completion.positions, [], c.certificate.coverage.activated)) ==
         CanonicalCoverage(r, c.certificate.coverage)
    && c.certificate.records == c.completion.total.rows && c.certificate.bytes == c.completion.total.bytes
    && ReceiptsMatch(c.certificate.receipts, c.completion.total, c.completion.resources)
  }

  ghost predicate Fits(c: Commit) {
    FieldsFit(c.certificate.receipts) && IsInt64(c.completion.total.rows) && IsInt64(c.completion.total.bytes)
  }

  method ValidateCompletion(r: Resolver, c: Commit) returns (ok: bool)
    requires Fits(c)
    ensures ok == CompletionOk(r, c)
  {
    var cert := c.certificate;
    if cert.layouts != c.layouts || !ValidRef(cert.ref) || cert.coverage.claims != [] || c.completion.ref != cert.ref {
      return false;
    }
    var covered := CanonicalizeCoverage(r, cert.coverage);
    if covered.None? { return false; }
    var completed := CanonicalizeCoverage(r, Coverage(c.completion.positions, [], cert.coverage.activated));
    if completed.None? || covered != completed { return false; }
    if cert.records != c.completion.total.rows || cert.bytes != c.completion.total.bytes { return false; }
    ok := CheckReceipts(cert.receipts, c.completion.total, c.completion.resources);
  }

  /** An accepted certificate covers exactly the sealed positions, up to their codecs. */
  lemma CoversSealed(r: Resolver, c: Commit)
    requires CompletionOk(r, c)
    ensures SamePositions(r, c.certificate.coverage.positions, c.completion.positions)
  {
    CoverageBackward(r, c.certificate.coverage, Coverage(c.completion.positions, [], c.certificate.coverage.activated));
  }

  // ---- the receipts the runner derives ----

  function Derived(r: Resource, t: Totals): Receipt { Receipt(r, t.rows, t.bytes, 0, None) }

  /** One receipt per resource of the completion, in some order. */
  ghost predicate IsDerived(receipts: seq<Receipt>, resources: map<Resource, Totals>) {
    && (forall i :: 0 <= i < |receipts| ==>
        && receipts[i].resource in resources
        && receipts[i] == Derived(receipts[i].resource, resources[receipts[i].resource]))
    && (forall i, j :: 0 <= i < j < |receipts| ==> receipts[i].resource != receipts[j].resource)
    && forall r :: r in resources ==> Derived(r, resources[r]) in receipts
  }

  method DeriveReceipts(resources: map<Resource, Totals>) returns (receipts: seq<Receipt>)
    ensures IsDerived(receipts, resources)
  {
    receipts := [];
    var todo := resources.Keys;
    while todo != {}
      invariant todo <= resources.Keys
      invariant forall i :: 0 <= i < |receipts| ==>
                  && receipts[i].resource in resources.Keys - todo
                  && receipts[i] == Derived(receipts[i].resource, resources[receipts[i].resource])
      invariant forall i, j :: 0 <= i < j < |receipts| ==> receipts[i].resource != receipts[j].resource
      invariant forall r :: r in resources && r !in todo ==> Derived(r, resources[r]) in receipts
      decreases |todo|
    {
      var r :| r in todo;
      receipts, todo := receipts + [Derived(r, resources[r])], todo - {r};
    }
  }

  lemma {:induction false} NoneFor(receipts: seq<Receipt>, r: Resource, n: nat)
    requires n <= |receipts| && forall i :: 0 <= i < n ==> receipts[i].resource != r
    ensures ForTo(receipts, r, n) == []
  {
    if n > 0 { NoneFor(receipts, r, n - 1); }
  }

  lemma {:induction false} OneFor(receipts: seq<Receipt>, k: nat, n: nat)
    requires k < n <= |receipts| && OncePerResource(receipts)
    ensures ForTo(receipts, receipts[k].resource, n) == [receipts[k]]
  {
    if k == n - 1 {
      NoneFor(receipts, receipts[k].resource, k);
    } else {
      OneFor(receipts, k, n - 1);
    }
  }

  /** The sum of a quantity over the resources of the first n receipts. */
  function SumOver(f: Resource -> int, receipts: seq<Receipt>, n: nat): int
    requires n <= |receipts|
  {
    if n == 0 then 0 else SumOver(f, receipts, n - 1) + f(receipts[n - 1].resource)
  }

  function RowsOf(applied: seq<P.Applied>): Resource -> int { r => I.SumRows(I.Of(applied, r)) }

  function BytesOf(applied: seq<P.Applied>): Resource -> int { r => I.SumBytes(I.Of(applied, r)) }

  ghost predicate NamesIn(receipts: seq<Receipt>, r: Resource, n: nat) {
    exists i :: 0 <= i < n <= |receipts| && receipts[i].resource == r
  }

  ghost predicate Names(receipts: seq<Receipt>, r: Resource) { NamesIn(receipts, r, |receipts|) }

  ghost predicate OncePerResource(receipts: seq<Receipt>) {
    forall i, j :: 0 <= i < j < |receipts| ==> receipts[i].resource != receipts[j].resource
  }

  lemma OfLast(applied: seq<P.Applied>, a: P.Applied, r: Resource)
    ensures var before, after := I.Of(applied, r), I.Of(applied + [a], r);
            && I.SumRows(after) == I.SumRows(before) + (if a.resource == r then |a.rows| else 0)
            && I.SumBytes(after) == I.SumBytes(before) + (if a.resource == r then a.bytes else 0)
  {
    I.OfAppend(applied, a, r);
    var before := I.Of(applied, r);
    assert (before + [a])[..|before|] == before;
    assert before + [] == before;
  }

  lemma NamesNext(receipts: seq<Receipt>, r: Resource, n: nat)
    requires OncePerResource(receipts) && n < |receipts|
    ensures NamesIn(receipts, r, n + 1) <==> NamesIn(receipts, r, n) || receipts[n].resource == r
    ensures NamesIn(receipts, r, n) ==> receipts[n].resource != r
  {
    if NamesIn(receipts, r, n) {
      var i :| 0 <= i < n <= |receipts| && receipts[i].resource == r;
      assert i < n + 1;
    }
  }

  /** Raising the quantity of one resource raises the sum exactly once when that resource is among those summed. */
  lemma {:induction false} RaisedOnce(f: Resource -> int, g: Resource -> int, r: Resource, d: int,
      receipts: seq<Receipt>, n: nat)
    requires OncePerResource(receipts) && n <= |receipts| && forall x :: g(x) == f(x) + if x == r then d else 0
    ensures SumOver(g, receipts, n) == SumOver(f, receipts, n) + if NamesIn(receipts, r, n) then d else 0
  {
    if n > 0 {
      RaisedOnce(f, g, r, d, receipts, n - 1);
      NamesNext(receipts, r, n - 1);
    }
  }

  lemma {:induction false} Unraised(f: Resource -> int, receipts: seq<Receipt>, n: nat)
    requires n <= |receipts| && forall x :: f(x) == 0
    ensures SumOver(f, receipts, n) == 0
  {
    if n > 0 { Unraised(f, receipts, n - 1); }
  }

  predicate Covered(applied: seq<P.Applied>, receipts: seq<Receipt>) {
    && SumOver(RowsOf(applied), receipts, |receipts|) == I.SumRows(applied)
    && SumOver(BytesOf(applied), receipts, |receipts|) == I.SumBytes(applied)
  }

  lemma NothingCovered(receipts: seq<Receipt>)
    ensures Covered([], receipts)
  {
    Unraised(RowsOf([]), receipts, |receipts|);
    Unraised(BytesOf([]), receipts, |receipts|);
  }

  lemma CoveredMore(front: seq<P.Applied>, a: P.Applied, receipts: seq<Receipt>)
    requires Covered(front, receipts) && OncePerResource(receipts) && Names(receipts, a.resource)
    ensures Covered(front + [a], receipts)
  {
    OneMoreBatch(front, a, receipts);
    assert (front + [a])[..|front|] == front;
  }

  /** What holds of nothing and survives each batch holds of all of them. */
  lemma {:induction false} BatchByBatch(p: seq<P.Applied> -> bool, applied: seq<P.Applied>, n: nat)
    requires n <= |applied| && p([]) && forall f, i :: 0 <= i < |applied| && p(f) ==> p(f + [applied[i]])
    ensures p(applied[..n])
  {
    if n > 0 {
      BatchByBatch(p, applied, n - 1);
      assert applied[..n] == applied[..n - 1] + [applied[n - 1]];
    }
  }

  /** Summing over every resource that was written gives the grand sums. */
  lemma OverAll(applied: seq<P.Applied>, receipts: seq<Receipt>)
    requires OncePerResource(receipts) && forall i :: 0 <= i < |applied| ==> Names(receipts, applied[i].resource)
    ensures Covered(applied, receipts)
  {
    var p := x => Covered(x, receipts);
    NothingCovered(receipts);
    forall f, i | 0 <= i < |applied| && p(f) ensures p(f + [applied[i]]) { CoveredMore(f, applied[i], receipts); }
    BatchByBatch(p, applied, |applied|);
    assert applied[..|applied|] == applied;
  }

  lemma OneMoreBatch(front: seq<P.Applied>, a: P.Applied, receipts: seq<Receipt>)
    requires OncePerResource(receipts) && Names(receipts, a.resource)
    ensures SumOver(RowsOf(front + [a]), receipts, |receipts|) ==
              SumOver(RowsOf(front), receipts, |receipts|) + |a.rows|
    ensures SumOver(BytesOf(front + [a]), receipts, |receipts|) ==
              SumOver(BytesOf(front), receipts, |receipts|) + a.bytes
  {
    var f, g, p, q := RowsOf(front), RowsOf(front + [a]), BytesOf(front), BytesOf(front + [a]);
    forall x ensures g(x) == f(x) + if x == a.resource then |a.rows| else 0 { OfLast(front, a, x); }
    forall x ensures q(x) == p(x) + if x == a.resource then a.bytes else 0 { OfLast(front, a, x); }
    RaisedOnce(f, g, a.resource, |a.rows|, receipts, |receipts|);
    RaisedOnce(p, q, a.resource, a.bytes, receipts, |receipts|);
  }

  /** The sink reported no negative byte count, and the epoch's sums fit 64 bits. */
  ghost predicate BytesFit(applied: seq<P.Applied>) {
    && (forall i :: 0 <= i < |applied| ==> applied[i].bytes >= 0) && I.SumRows(applied) <= MAX_INT64
    && I.SumBytes(applied) <= MAX_INT64
  }

  lemma {:induction false} OfSmaller(applied: seq<P.Applied>, r: Resource)
    requires forall i :: 0 <= i < |applied| ==> applied[i].bytes >= 0
    ensures 0 <= I.SumRows(I.Of(applied, r)) <= I.SumRows(applied)
    ensures 0 <= I.SumBytes(I.Of(applied, r)) <= I.SumBytes(applied)
  {
    if applied != [] {
      var front, a := applied[..|applied| - 1], applied[|applied| - 1];
      assert applied == front + [a];
      OfSmaller(front, r);
      OfLast(front, a, r);
    }
  }

  /** With sums that fit, a derived receipt carries the plain sums of its resource. */
  lemma DerivedPlain(applied: seq<P.Applied>, r: Resource)
    requires BytesFit(applied)
    ensures I.TotalsOf(I.Of(applied, r)) == Totals(I.SumRows(I.Of(applied, r)), I.SumBytes(I.Of(applied, r)))
    ensures I.TotalsOf(applied) == Totals(I.SumRows(applied), I.SumBytes(applied))
    ensures 0 <= I.SumRows(I.Of(applied, r)) && 0 <= I.SumBytes(I.Of(applied, r))
  {
    OfSmaller(applied, r);
  }

  lemma {:induction false} DerivedSums(applied: seq<P.Applied>, receipts: seq<Receipt>, n: nat)
    requires n <= |receipts|
    requires forall i :: 0 <= i < |receipts| ==> Carries(receipts[i], I.Of(applied, receipts[i].resource))
    ensures RowSumTo(receipts, n) == SumOver(RowsOf(applied), receipts, n)
    ensures ByteSumTo(receipts, n) == SumOver(BytesOf(applied), receipts, n)
  {
    if n > 0 { DerivedSums(applied, receipts, n - 1); }
  }

  predicate Carries(x: Receipt, batches: seq<P.Applied>) {
    x.rows == I.SumRows(batches) && x.bytes == I.SumBytes(batches)
  }

  lemma {:induction false} OfMember(applied: seq<P.Applied>, k: nat)
    requires k < |applied|
    ensures I.Of(applied, applied[k].resource) != []
  {
    if k < |applied| - 1 { OfMember(applied[..|applied| - 1], k); }
  }

  lemma DerivedNames(receipts: seq<Receipt>, resources: map<Resource, Totals>, r: Resource)
    requires IsDerived(receipts, resources)
    ensures Names(receipts, r) <==> r in resources
    ensures ReceiptsFor(receipts, r) == if r in resources then [Derived(r, resources[r])] else []
  {
    if r in resources {
      var k :| 0 <= k < |receipts| && receipts[k] == Derived(r, resources[r]);
      OneFor(receipts, k, |receipts|);
    } else {
      NoneFor(receipts, r, |receipts|);
    }
  }

  /** The receipts derived from the totals a completion carries always pass the check, when byte counts are non-negative
      and fit. */
  lemma DerivedMatch(c: P.Completion, applied: seq<P.Applied>, receipts: seq<Receipt>)
    requires c.total == I.TotalsOf(applied) && BytesFit(applied) && IsDerived(receipts, c.resources)
    requires forall r :: r in c.resources <==> I.Of(applied, r) != []
    requires forall r :: r in c.resources ==> c.resources[r] == I.TotalsOf(I.Of(applied, r))
    ensures ReceiptsMatch(receipts, c.total, c.resources)
  {
    forall i | 0 <= i < |applied| ensures Names(receipts, applied[i].resource) {
      OfMember(applied, i);
      DerivedNames(receipts, c.resources, applied[i].resource);
    }
    OverAll(applied, receipts);
    forall i | 0 <= i < |receipts|
      ensures Carries(receipts[i], I.Of(applied, receipts[i].resource)) && receipts[i].rows >= 0
      ensures receipts[i].bytes >= 0
    {
      DerivedPlain(applied, receipts[i].resource);
    }
    DerivedSums(applied, receipts, |receipts|);
    DerivedPlain(applied, Resource(""));
    forall r ensures Expected(receipts, c.resources, r) {
      DerivedNames(receipts, c.resources, r);
      if r in c.resources { Single(Derived(r, c.resources[r]), r); }
    }
  }

  /** So they pass for the completion of any epoch sealed in any interleaving. */
  lemma SealedReceiptsMatch(cfg: P.Config, s: P.State, receipts: seq<Receipt>)
    requires T.Reachable(cfg, s) && P.Step(cfg, s, P.SealAction).log.seals != s.log.seals && BytesFit(s.log.applied)
    requires var seals := P.Step(cfg, s, P.SealAction).log.seals;
             |seals| > 0 && IsDerived(receipts, seals[|seals| - 1].resources)
    ensures var seals := P.Step(cfg, s, P.SealAction).log.seals;
            ReceiptsMatch(receipts, seals[|seals| - 1].total, seals[|seals| - 1].resources)
  {
    T.SealedEpoch(cfg, s);
    var seals := P.Step(cfg, s, P.SealAction).log.seals;
    DerivedMatch(seals[|seals| - 1], s.log.applied, receipts);
  }
}
