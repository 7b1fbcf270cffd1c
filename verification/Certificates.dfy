/** Coverage and certificates, their canonical forms, and what two certificates with the same canonical bytes share. */
module Certificates {
  import opened RowModel
  import opened Order
  import opened Progress
  import opened Epochs
  import SchemaEvolution

  datatype Claim = Claim(rowId: string, owner: string, token: int)

  /** A nil list and an empty one have the same canonical form, so a list stands for both. */
  datatype Coverage = Coverage(positions: Positions, claims: seq<Claim>, activated: seq<string>)

  datatype Evidence = Evidence(format: string, version: int, payload: Option<string>)

  datatype Receipt = Receipt(resource: Resource, rows: int, bytes: int, crc: int, evidence: Option<Evidence>)

  datatype Certificate = Certificate(
    version: int, tenant: string, ref: EpochRef, pipeline: string, coverage: Coverage, receipts: seq<Receipt>,
    records: int, bytes: int, layouts: Option<SchemaEvolution.Layouts>)

  const FORMAT_V1 := 1
  const FORMAT_V2 := 2

  // ---- validation ----

  predicate ValidClaim(c: Claim) { c.rowId != "" && c.owner != "" && c.token > 0 }

  ghost predicate DistinctRows(claims: seq<Claim>) {
    forall i, j :: 0 <= i < j < |claims| ==> claims[i].rowId != claims[j].rowId
  }

  ghost predicate ValidClaims(claims: seq<Claim>) { DistinctRows(claims) && forall c :: c in claims ==> ValidClaim(c) }

  /** Coverage.ValidateRepresentation. */
  ghost predicate ValidRepresentation(c: Coverage) {
    (c.positions == map[]) != (c.claims == []) && ValidPositions(c.positions) && ValidClaims(c.claims)
  }

  method ValidateRepresentation(c: Coverage) returns (ok: bool)
    ensures ok == ValidRepresentation(c)
  {
    if (c.positions == map[]) == (c.claims == []) { return false; }
    var entries := Entries(c.positions);
    if entries.None? { return false; }
    var seen: set<string> := {};
    for k := 0 to |c.claims|
      invariant seen == set i | 0 <= i < k :: c.claims[i].rowId
      invariant forall i :: 0 <= i < k ==> ValidClaim(c.claims[i])
      invariant forall i, j :: 0 <= i < j < k ==> c.claims[i].rowId != c.claims[j].rowId
    {
      var claim := c.claims[k];
      if !ValidClaim(claim) || claim.rowId in seen {
        assert claim in c.claims;
        return false;
      }
      seen := seen + {claim.rowId};
    }
    return true;
  }

  predicate ValidEvidence(e: Option<Evidence>) { e.Some? ==> e.value.format != "" && e.value.version >= 0 }

  predicate ValidReceipt(r: Receipt) {
    r.resource.name != "" && r.rows >= 0 && r.bytes >= 0 && ValidEvidence(r.evidence)
  }

  /** ValidateMessageSchemas. */
  ghost predicate ValidMessageSchemas(c: Certificate) {
    if c.version == FORMAT_V1 then c.layouts.None?
    else
      && c.version == FORMAT_V2 && c.layouts.Some? && c.layouts.value != map[]
      && SchemaEvolution.LayoutsOk(map[], c.layouts.value)
      && forall r :: r in c.receipts ==> r.resource.name in c.layouts.value
  }

  ghost predicate ValidHeader(c: Certificate) {
    c.tenant != "" && c.pipeline != "" && c.records >= 0 && c.bytes >= 0 && ValidRef(c.ref)
  }

  ghost predicate ValidCertificate(c: Certificate) {
    && ValidHeader(c) && ValidMessageSchemas(c) && ValidRepresentation(c.coverage)
    && forall r :: r in c.receipts ==> ValidReceipt(r)
  }

  // ---- canonical coverage ----

  function RowId(c: Claim): string { c.rowId }

  predicate ClaimLess(a: Claim, b: Claim) { Less(a.rowId, b.rowId) }

  function SetOf<T>(s: seq<T>): set<T> { set x | x in s }

  ghost predicate Resolves(r: Resolver, p: Positions) { forall d :: d in p ==> CanonicalPosition(r, p[d]).Some? }

  ghost function CanonicalPositions(r: Resolver, p: Positions): (q: Positions)
    requires Resolves(r, p)
    ensures q.Keys == p.Keys && forall d :: d in p ==> CanonicalPosition(r, p[d]) == Some(q[d])
  {
    map d | d in p :: CanonicalPosition(r, p[d]).value
  }

  ghost function CanonicalCoverage(r: Resolver, c: Coverage): Option<Coverage> {
    if !ValidRepresentation(c) || !Resolves(r, c.positions) then None
    else Some(Coverage(CanonicalPositions(r, c.positions), SortBy(c.claims, ClaimLess), SortedKeys(SetOf(c.activated))))
  }

  /** Rewrites every position, visiting the map in any order. */
  method CanonicalizePositions(r: Resolver, p: Positions) returns (q: Option<Positions>)
    ensures q.Some? <==> Resolves(r, p)
    ensures q.Some? ==> q.value == CanonicalPositions(r, p)
  {
    var out, todo := p, p.Keys;
    while todo != {}
      invariant todo <= p.Keys && out.Keys == p.Keys
      invariant forall d :: d in todo ==> out[d] == p[d]
      invariant forall d :: d in p && d !in todo ==> CanonicalPosition(r, p[d]) == Some(out[d])
      decreases |todo|
    {
      var d :| d in todo;
      var v := CanonicalPosition(r, out[d]);
      if v.None? { return None; }
      out, todo := out[d := v.value], todo - {d};
    }
    return Some(out);
  }

  predicate StringLess(a: string, b: string) { Less(a, b) }

  lemma StringOrder()
    ensures WeakOrder(StringLess)
  {
    KeyOrder((s: string) => s, StringLess);
  }

  /** slices.Compact after slices.Sort. */
  method SortCompact(s: seq<string>) returns (out: seq<string>)
    ensures out == SortedKeys(SetOf(s))
  {
    var sorted := SortBy(s, StringLess);
    StringOrder();
    SortSorts(s, StringLess);
    out := [];
    for k := 0 to |sorted|
      invariant forall x :: x in out <==> x in sorted[..k]
      invariant StrictlySortedBy(out, StringLess)
      invariant k > 0 ==> out != [] && out[|out| - 1] == sorted[k - 1]
    {
      if out == [] || out[|out| - 1] != sorted[k] {
        forall i | 0 <= i < |out| ensures StringLess(out[i], sorted[k]) {
          assert out[i] in out && out[i] in sorted[..k];
          LastBelow(sorted, k, out, i);
        }
        out := out + [sorted[k]];
      }
    }
    assert sorted[..|sorted|] == sorted;
    StrictUnique(out, SortedKeys(SetOf(s)), StringLess);
  }

  lemma LastBelow(sorted: seq<string>, k: nat, out: seq<string>, i: nat)
    requires WeakOrder(StringLess) && SortedBy(sorted, StringLess) && 0 < k < |sorted| && i < |out|
    requires StrictlySortedBy(out, StringLess) && out[|out| - 1] == sorted[k - 1] != sorted[k]
    ensures StringLess(out[i], sorted[k])
  {
    LessTotal(sorted[k - 1], sorted[k]);
    if i < |out| - 1 { LessTransitive(out[i], sorted[k - 1], sorted[k]); }
  }

  /** Coverage.Canonicalize. */
  method CanonicalizeCoverage(r: Resolver, c: Coverage) returns (out: Option<Coverage>)
    ensures out == CanonicalCoverage(r, c)
  {
    var valid := ValidateRepresentation(c);
    if !valid { return None; }
    var positions := CanonicalizePositions(r, c.positions);
    if positions.None? { return None; }
    var activated := SortCompact(c.activated);
    return Some(Coverage(positions.value, SortBy(c.claims, ClaimLess), activated));
  }

  // ---- canonical certificates ----

  /** The JSON of a receipt and of a certificate; each is injective on the values it is used for. */
  datatype Encoding = Encoding(receipt: Receipt -> string, certificate: Certificate -> string)

  ghost predicate Injective(e: Encoding) {
    && (forall a, b :: e.receipt(a) == e.receipt(b) ==> a == b)
    && forall a, b :: e.certificate(a) == e.certificate(b) ==> a == b
  }

  function ReceiptLess(e: Encoding): (Receipt, Receipt) -> bool { (a, b) => Less(e.receipt(a), e.receipt(b)) }

  ghost function Canonical(r: Resolver, e: Encoding, c: Certificate): Option<Certificate> {
    if !ValidCertificate(c) || !Resolves(r, c.coverage.positions) then None
    else Some(c.(coverage := CanonicalCoverage(r, c.coverage).value, receipts := SortBy(c.receipts, ReceiptLess(e))))
  }

  ghost function CanonicalBytes(r: Resolver, e: Encoding, c: Certificate): Option<string> {
    var canonical := Canonical(r, e, c);
    if canonical.None? then None else Some(e.certificate(canonical.value))
  }

  method ValidateReceipts(receipts: seq<Receipt>) returns (ok: bool)
    ensures ok == forall r :: r in receipts ==> ValidReceipt(r)
  {
    for k := 0 to |receipts|
      invariant forall i :: 0 <= i < k ==> ValidReceipt(receipts[i])
    {
      if !ValidReceipt(receipts[k]) {
        assert receipts[k] in receipts;
        return false;
      }
    }
    return true;
  }

  method CheckMessageSchemas(c: Certificate) returns (ok: bool)
    ensures ok == ValidMessageSchemas(c)
  {
    if c.version == FORMAT_V1 { return c.layouts.None?; }
    if c.version != FORMAT_V2 || c.layouts.None? || c.layouts.value == map[] { return false; }
    var layouts := SchemaEvolution.CheckMessageLayouts(map[], c.layouts.value);
    if !layouts { return false; }
    for k := 0 to |c.receipts|
      invariant forall i :: 0 <= i < k ==> c.receipts[i].resource.name in c.layouts.value
    {
      if c.receipts[k].resource.name !in c.layouts.value {
        assert c.receipts[k] in c.receipts;
        return false;
      }
    }
    return true;
  }

  /** EpochCertificate.CanonicalBytes. */
  method EncodeCanonical(r: Resolver, e: Encoding, c: Certificate) returns (data: Option<string>)
    ensures data == CanonicalBytes(r, e, c)
  {
    if c.tenant == "" || c.pipeline == "" || c.records < 0 || c.bytes < 0 { return None; }
    var schemas := CheckMessageSchemas(c);
    if !schemas || !ValidRef(c.ref) { return None; }
    var coverage := CanonicalizeCoverage(r, c.coverage);
    if coverage.None? { return None; }
    var receipts := ValidateReceipts(c.receipts);
    if !receipts { return None; }
    var sorted := SortBy(c.receipts, ReceiptLess(e));
    return Some(e.certificate(c.(coverage := coverage.value, receipts := sorted)));
  }

  // ---- what canonical bytes identify ----

  ghost predicate SamePositions(r: Resolver, p: Positions, q: Positions) {
    p.Keys == q.Keys && forall d :: d in p ==> CanonicalPosition(r, p[d]) == CanonicalPosition(r, q[d])
  }

  ghost predicate SameCoverage(r: Resolver, c: Coverage, d: Coverage) {
    && SamePositions(r, c.positions, d.positions) && multiset(c.claims) == multiset(d.claims)
    && SetOf(c.activated) == SetOf(d.activated)
  }

  /** The same identity, totals and layouts; positions equal up to their codecs; the same claims and receipts in any
      order; the same activated members in any order and any number of times. */
  ghost predicate Equivalent(r: Resolver, c: Certificate, d: Certificate) {
    && SameCoverage(r, c.coverage, d.coverage) && multiset(c.receipts) == multiset(d.receipts)
    && d == c.(coverage := d.coverage, receipts := d.receipts)
  }

  lemma SameMembers<T>(a: seq<T>, b: seq<T>)
    requires multiset(a) == multiset(b)
    ensures forall x :: x in a <==> x in b
  {
    assert forall x :: x in a <==> x in multiset(a);
    assert forall x :: x in b <==> x in multiset(b);
  }

  lemma {:induction false} RowsDistinctly(claims: seq<Claim>)
    ensures DistinctRows(claims) <==> Distinct(claims) && Separates(claims, ClaimLess)
  {
    if DistinctRows(claims) {
      forall a, b | a in claims && b in claims && a != b ensures ClaimLess(a, b) || ClaimLess(b, a) {
        var i :| 0 <= i < |claims| && claims[i] == a;
        var j :| 0 <= j < |claims| && claims[j] == b;
        LessTotal(a.rowId, b.rowId);
      }
    }
    if Distinct(claims) && Separates(claims, ClaimLess) {
      forall i, j | 0 <= i < j < |claims| ensures claims[i].rowId != claims[j].rowId {
        LessTotal(claims[i].rowId, claims[j].rowId);
        assert claims[i] in claims && claims[j] in claims;
      }
    }
  }

  lemma ClaimsPermuted(a: seq<Claim>, b: seq<Claim>)
    requires ValidClaims(a) && multiset(a) == multiset(b)
    ensures ValidClaims(b) && SortBy(a, ClaimLess) == SortBy(b, ClaimLess)
  {
    SameMembers(a, b);
    RowsDistinctly(a);
    DistinctSame(a, b);
    RowsDistinctly(b);
    KeyOrder(RowId, ClaimLess);
    SortSame(a, b, ClaimLess);
  }

  lemma SamePositionsForward(r: Resolver, p: Positions, q: Positions)
    requires ValidPositions(p) && Resolves(r, p) && SamePositions(r, p, q)
    ensures ValidPositions(q) && Resolves(r, q) && CanonicalPositions(r, p) == CanonicalPositions(r, q)
  {
    forall d | d in q ensures CanonicalPosition(r, q[d]).Some? && ValidEntry(Entry(d, q[d])) {
      assert d in p && ValidEntry(Entry(d, p[d]));
    }
  }

  lemma CoverageForward(r: Resolver, c: Coverage, d: Coverage)
    requires CanonicalCoverage(r, c).Some? && SameCoverage(r, c, d)
    ensures CanonicalCoverage(r, d) == CanonicalCoverage(r, c)
  {
    SamePositionsForward(r, c.positions, d.positions);
    ClaimsPermuted(c.claims, d.claims);
    assert |c.claims| == |multiset(c.claims)| == |multiset(d.claims)| == |d.claims|;
    assert c.positions == map[] <==> c.positions.Keys == {};
    assert d.positions == map[] <==> d.positions.Keys == {};
  }

  lemma CoverageBackward(r: Resolver, c: Coverage, d: Coverage)
    requires CanonicalCoverage(r, c).Some? && CanonicalCoverage(r, d) == CanonicalCoverage(r, c)
    ensures SameCoverage(r, c, d)
  {
    KeyOrder(RowId, ClaimLess);
    SortSorts(c.claims, ClaimLess);
    SortSorts(d.claims, ClaimLess);
    assert SetOf(c.activated) == SetOf(SortedKeys(SetOf(c.activated)));
    assert SetOf(d.activated) == SetOf(SortedKeys(SetOf(d.activated)));
  }

  lemma ReceiptOrder(e: Encoding, receipts: seq<Receipt>)
    requires Injective(e)
    ensures WeakOrder(ReceiptLess(e)) && Separates(receipts, ReceiptLess(e))
  {
    KeyOrder(e.receipt, ReceiptLess(e));
    forall a, b | a in receipts && b in receipts && a != b ensures ReceiptLess(e)(a, b) || ReceiptLess(e)(b, a) {
      LessTotal(e.receipt(a), e.receipt(b));
    }
  }

  lemma CertificateForward(r: Resolver, e: Encoding, c: Certificate, d: Certificate)
    requires Injective(e) && Canonical(r, e, c).Some? && Equivalent(r, c, d)
    ensures Canonical(r, e, d) == Canonical(r, e, c)
  {
    SameMembers(c.receipts, d.receipts);
    CoverageForward(r, c.coverage, d.coverage);
    ReceiptOrder(e, c.receipts);
    SortSame(c.receipts, d.receipts, ReceiptLess(e));
    assert c.version == d.version && c.layouts == d.layouts;
  }

  lemma CertificateBackward(r: Resolver, e: Encoding, c: Certificate, d: Certificate)
    requires Injective(e) && Canonical(r, e, c).Some? && Canonical(r, e, d) == Canonical(r, e, c)
    ensures Equivalent(r, c, d)
  {
    CoverageBackward(r, c.coverage, d.coverage);
    ReceiptOrder(e, c.receipts);
    SortSorts(c.receipts, ReceiptLess(e));
    SortSorts(d.receipts, ReceiptLess(e));
    var same := Canonical(r, e, c).value;
    assert c == same.(coverage := c.coverage, receipts := c.receipts);
    assert d == same.(coverage := d.coverage, receipts := d.receipts);
  }

  /** Two certificates have the same canonical bytes exactly when they are equivalent. */
  lemma CanonicalExactly(r: Resolver, e: Encoding, c: Certificate, d: Certificate)
    requires Injective(e) && CanonicalBytes(r, e, c).Some?
    ensures CanonicalBytes(r, e, d) == CanonicalBytes(r, e, c) <==> Equivalent(r, c, d)
  {
    if Equivalent(r, c, d) { CertificateForward(r, e, c, d); }
    if CanonicalBytes(r, e, d) == CanonicalBytes(r, e, c) { CertificateBackward(r, e, c, d); }
  }

  /** A certificate whose counters are spelled with other leading zeros. */
  ghost predicate Respelled(r: Resolver, c: Certificate, d: Certificate) {
    && d == c.(coverage := c.coverage.(positions := d.coverage.positions))
    && d.coverage.positions.Keys == c.coverage.positions.Keys
    && forall k :: k in c.coverage.positions ==> RespelledAt(r, c.coverage.positions[k], d.coverage.positions[k])
  }

  ghost predicate RespelledAt(r: Resolver, p: Position, q: Position) {
    p == q || (IsCounter(p) && CountsWith(r, p) && exists n: nat :: q == Padded(p, n))
  }

  /** It has the same canonical bytes. */
  lemma RespelledBytes(r: Resolver, e: Encoding, c: Certificate, d: Certificate)
    requires Injective(e) && CanonicalBytes(r, e, c).Some? && Respelled(r, c, d)
    ensures CanonicalBytes(r, e, d) == CanonicalBytes(r, e, c)
  {
    forall k | k in c.coverage.positions
      ensures CanonicalPosition(r, c.coverage.positions[k]) == CanonicalPosition(r, d.coverage.positions[k])
    {
      assert RespelledAt(r, c.coverage.positions[k], d.coverage.positions[k]);
      if c.coverage.positions[k] != d.coverage.positions[k] {
        var n: nat :| d.coverage.positions[k] == Padded(c.coverage.positions[k], n);
        PaddedPosition(r, c.coverage.positions[k], n);
      }
    }
    CanonicalExactly(r, e, c, d);
  }

  /** Canonicalizing a canonical certificate changes nothing. */
  lemma CanonicalTwice(r: Resolver, e: Encoding, c: Certificate)
    requires Injective(e) && LawfulAll(r) && Canonical(r, e, c).Some?
    ensures Canonical(r, e, Canonical(r, e, c).value) == Canonical(r, e, c)
  {
    var d := Canonical(r, e, c).value;
    assert SamePositions(r, c.coverage.positions, d.coverage.positions) by {
      forall k | k in c.coverage.positions
        ensures CanonicalPosition(r, c.coverage.positions[k]) == CanonicalPosition(r, d.coverage.positions[k])
      {
        CanonicalIdempotent(r, c.coverage.positions[k]);
      }
    }
    KeyOrder(RowId, ClaimLess);
    SortSorts(c.coverage.claims, ClaimLess);
    ReceiptOrder(e, c.receipts);
    SortSorts(c.receipts, ReceiptLess(e));
    assert SetOf(d.coverage.activated) == SetOf(c.coverage.activated);
    CertificateForward(r, e, c, d);
  }
}
