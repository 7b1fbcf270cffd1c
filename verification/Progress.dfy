/** Source progress: domains, positions, the codecs that compare positions, and the sorted wire form of a position
    map. */
module Progress {
  import opened RowModel
  import opened Order
  import opened Digits

  datatype Domain = Domain(incarnation: string, name: string)

  /** A nil value is absent, and differs from an empty one. */
  datatype Position = Position(codec: string, version: int, value: Option<string>)

  type Positions = map<Domain, Position>

  predicate ValidDomain(d: Domain) { d.incarnation != "" && d.name != "" }

  predicate ValidPosition(p: Position) { p.codec != "" && p.version >= 0 }

  // ---- codecs ----

  datatype Ordering = Incomparable | Equal | Before | After

  /** A position format; compare is none on an error. */
  datatype Codec = Codec(
    validate: Position -> bool, canonicalize: Position -> Option<Position>,
      compare: (Position, Position) -> Option<Ordering>)

  type Resolver = (string, int) -> Option<Codec>

  predicate SameFormat(a: Position, b: Position) { a.codec == b.codec && a.version == b.version }

  /** CanonicalPosition. */
  function CanonicalPosition(r: Resolver, p: Position): (q: Option<Position>)
    ensures q.Some? ==> SameFormat(p, q.value) && ValidPosition(p)
  {
    if !ValidPosition(p) then None else
      var codec := r(p.codec, p.version);
      if codec.None? || !codec.value.validate(p) then None else
        var q := codec.value.canonicalize(p);
        if q.None? || !SameFormat(p, q.value) || !codec.value.validate(q.value) then None else q
  }

  /** ComparePositions; none is an error, and an unordered pair fails closed. */
  function ComparePositions(r: Resolver, a: Domain, x: Position, b: Domain, y: Position): Option<Ordering> {
    if !ValidDomain(a) || !ValidDomain(b) || a != b || !SameFormat(x, y) then None else
      var x', y' := CanonicalPosition(r, x), CanonicalPosition(r, y);
      if x'.None? || y'.None? then None else
        var o := r(x'.value.codec, x'.value.version).value.compare(x'.value, y'.value);
        if o.None? || o.value.Incomparable? then None else o
  }

  /** What a codec owes its users: canonical forms are canonical, and comparing equal is having the same one. */
  ghost predicate Lawful(c: Codec) {
    && (forall p :: c.validate(p) && c.canonicalize(p).Some? ==>
        c.canonicalize(c.canonicalize(p).value) == c.canonicalize(p))
    && (forall p, q ::
          && c.validate(p) && c.validate(q) && SameFormat(p, q) && c.canonicalize(p).Some? && c.canonicalize(q).Some?
          && c.validate(c.canonicalize(p).value) && c.validate(c.canonicalize(q).value)
          && SameFormat(p, c.canonicalize(p).value) && SameFormat(q, c.canonicalize(q).value) ==>
            (c.compare(c.canonicalize(p).value, c.canonicalize(q).value) == Some(Equal) <==>
             c.canonicalize(p) == c.canonicalize(q)))
  }

  ghost predicate LawfulAll(r: Resolver) {
    forall name, version :: r(name, version).Some? ==> Lawful(r(name, version).value)
  }

  lemma CanonicalIdempotent(r: Resolver, p: Position)
    requires LawfulAll(r) && CanonicalPosition(r, p).Some?
    ensures CanonicalPosition(r, CanonicalPosition(r, p).value) == CanonicalPosition(r, p)
  {
    assert Lawful(r(p.codec, p.version).value);
  }

  /** Two positions of one domain compare equal exactly when they have the same canonical form. */
  lemma EqualExactly(r: Resolver, d: Domain, x: Position, y: Position)
    requires LawfulAll(r) && ValidDomain(d)
    ensures ComparePositions(r, d, x, d, y) == Some(Equal)
            <==> CanonicalPosition(r, x).Some? && CanonicalPosition(r, x) == CanonicalPosition(r, y)
  {
    if CanonicalPosition(r, x).Some? && CanonicalPosition(r, y).Some? && SameFormat(x, y) {
      assert Lawful(r(x.codec, x.version).value);
    }
  }

  // ---- the two codecs of the connector toolkit ----

  const MAX_UINT64 := 0xFFFF_FFFF_FFFF_FFFF

  predicate IsCounter(p: Position) {
    && ValidPosition(p) && p.value.Some? && p.value.value != "" && AllDigits(p.value.value)
    && Value(p.value.value) <= MAX_UINT64
  }

  function Counter(p: Position): nat
    requires IsCounter(p)
  {
    Value(p.value.value)
  }

  function Uint64Canonical(p: Position): (q: Option<Position>) {
    if IsCounter(p) then Some(p.(value := Some(Format(Counter(p))))) else None
  }

  function Uint64Compare(a: Position, b: Position): Option<Ordering> {
    if !SameFormat(a, b) then Some(Incomparable)
    else if !IsCounter(a) || !IsCounter(b) then None
    else if Counter(a) < Counter(b) then Some(Before)
    else if Counter(a) > Counter(b) then Some(After)
    else Some(Equal)
  }

  const Uint64Codec := Codec(IsCounter, Uint64Canonical, Uint64Compare)

  function OpaqueCanonical(p: Position): Option<Position> { if ValidPosition(p) then Some(p) else None }

  function OpaqueCompare(a: Position, b: Position): Option<Ordering> {
    if !SameFormat(a, b) then Some(Incomparable)
    else if !ValidPosition(a) || !ValidPosition(b) then None
    else if a.value == b.value then Some(Equal) else Some(Incomparable)
  }

  const OpaqueCodec := Codec(ValidPosition, OpaqueCanonical, OpaqueCompare)

  /** A canonical counter is a counter of the same value, and canonical already. */
  lemma CounterCanonical(p: Position)
    requires IsCounter(p)
    ensures IsCounter(Uint64Canonical(p).value) && Counter(Uint64Canonical(p).value) == Counter(p)
    ensures Uint64Canonical(Uint64Canonical(p).value) == Uint64Canonical(p)
  {
    ValueFormat(Counter(p));
  }

  /** Counters have one spelling exactly when they are the same number of the same format. */
  lemma CounterSpelling(p: Position, q: Position)
    requires IsCounter(p) && IsCounter(q)
    ensures Uint64Canonical(p) == Uint64Canonical(q) <==> SameFormat(p, q) && Counter(p) == Counter(q)
  {
    ValueFormat(Counter(p));
    ValueFormat(Counter(q));
  }

  /** A counter is its own canonical form exactly when it has no leading zero. */
  lemma CounterFixed(p: Position)
    requires IsCounter(p)
    ensures Uint64Canonical(p) == Some(p) <==> Canonical(p.value.value)
  {
    ValueFormat(Counter(p));
    if Canonical(p.value.value) { FormatValue(p.value.value); }
  }

  function Padded(p: Position, n: nat): Position
    requires p.value.Some?
  {
    p.(value := Some(Zeros(n) + p.value.value))
  }

  /** Leading zeros do not change the canonical form. */
  lemma LeadingZeros(p: Position, n: nat)
    requires IsCounter(p)
    ensures IsCounter(Padded(p, n)) && Uint64Canonical(Padded(p, n)) == Uint64Canonical(p)
  {
    ValueLeadingZeros(n, p.value.value);
  }

  ghost predicate CountsWith(r: Resolver, p: Position) { r(p.codec, p.version) == Some(Uint64Codec) }

  /** Nor do they through the registry, in comparisons or in certificates. */
  lemma PaddedPosition(r: Resolver, p: Position, n: nat)
    requires IsCounter(p) && CountsWith(r, p)
    ensures CanonicalPosition(r, Padded(p, n)) == CanonicalPosition(r, p) && CanonicalPosition(r, p).Some?
  {
    LeadingZeros(p, n);
    CounterCanonical(p);
  }

  /** Counters of one domain are ordered as numbers, however they are spelled; anything that is no counter is an
      error. */
  lemma CounterOrder(r: Resolver, d: Domain, x: Position, y: Position)
    requires ValidDomain(d) && CountsWith(r, x) && SameFormat(x, y)
    ensures ComparePositions(r, d, x, d, y) ==
              if !IsCounter(x) || !IsCounter(y) then None
              else if Counter(x) < Counter(y) then Some(Before) else if Counter(x) > Counter(y) then Some(After)
                else Some(Equal)
  {
    if IsCounter(x) { CounterCanonical(x); }
    if IsCounter(y) { CounterCanonical(y); }
  }

  /** Opaque positions of one domain are equal when identical and in no order otherwise. */
  lemma OpaqueOrder(r: Resolver, d: Domain, x: Position, y: Position)
    requires ValidDomain(d) && r(x.codec, x.version) == Some(OpaqueCodec) && SameFormat(x, y)
    ensures ComparePositions(r, d, x, d, y) == if ValidPosition(x) && x == y then Some(Equal) else None
  {}

  lemma CodecsLawful()
    ensures Lawful(Uint64Codec) && Lawful(OpaqueCodec)
  {
    var c := Uint64Codec;
    forall p | c.validate(p) && c.canonicalize(p).Some?
      ensures c.canonicalize(c.canonicalize(p).value) == c.canonicalize(p)
    {
      CounterCanonical(p);
    }
    forall p, q | IsCounter(p) && IsCounter(q) && SameFormat(p, q)
      ensures c.compare(c.canonicalize(p).value, c.canonicalize(q).value) == Some(Equal) <==>
                c.canonicalize(p) == c.canonicalize(q)
    {
      CounterCanonical(p);
      CounterCanonical(q);
      CounterSpelling(p, q);
    }
  }

  // ---- entries ----

  predicate DomainLess(a: Domain, b: Domain) {
    if a.incarnation != b.incarnation then Less(a.incarnation, b.incarnation) else Less(a.name, b.name)
  }

  lemma DomainTotal(a: Domain, b: Domain)
    ensures (a == b || DomainLess(a, b) || DomainLess(b, a)) && !(DomainLess(a, b) && DomainLess(b, a))
  {
    LessTotal(a.incarnation, b.incarnation);
    LessTotal(a.name, b.name);
  }

  lemma DomainTransitive(a: Domain, b: Domain, c: Domain)
    requires DomainLess(a, b) && DomainLess(b, c)
    ensures DomainLess(a, c)
  {
    if a.incarnation == b.incarnation == c.incarnation {
      LessTransitive(a.name, b.name, c.name);
    } else if a.incarnation != b.incarnation && b.incarnation != c.incarnation {
      LessTransitive(a.incarnation, b.incarnation, c.incarnation);
      LessTotal(b.incarnation, c.incarnation);
    }
  }

  datatype Entry = Entry(domain: Domain, position: Position)

  predicate EntryLess(a: Entry, b: Entry) { DomainLess(a.domain, b.domain) }

  lemma EntryOrder()
    ensures WeakOrder(EntryLess)
    ensures forall a: Entry, b: Entry :: a.domain != b.domain ==> EntryLess(a, b) || EntryLess(b, a)
  {
    forall a: Entry, b: Entry
      ensures (EntryLess(a, b) ==> !EntryLess(b, a)) && (a.domain != b.domain ==> EntryLess(a, b) || EntryLess(b, a))
    {
      DomainTotal(a.domain, b.domain);
    }
    forall a: Entry, b: Entry, c: Entry | !EntryLess(a, b) && !EntryLess(b, c) ensures !EntryLess(a, c) {
      DomainTotal(a.domain, b.domain);
      DomainTotal(b.domain, c.domain);
      DomainTotal(a.domain, c.domain);
      if EntryLess(a, c) && a.domain != b.domain && b.domain != c.domain {
        DomainTransitive(c.domain, b.domain, a.domain);
      }
    }
  }

  predicate ValidEntry(e: Entry) { ValidDomain(e.domain) && ValidPosition(e.position) }

  ghost predicate ValidPositions(p: Positions) { forall d :: d in p ==> ValidEntry(Entry(d, p[d])) }

  /** The entries of a position map, each domain once, in incarnation and domain order. */
  ghost predicate IsEntries(p: Positions, entries: seq<Entry>) {
    && (forall e :: e in entries <==> e.domain in p && p[e.domain] == e.position)
    && StrictlySortedBy(entries, EntryLess)
  }

  /** DomainPositions.UnmarshalJSON on already parsed entries. */
  function FromEntries(entries: seq<Entry>): Option<Positions> {
    if entries == [] then Some(map[]) else
      var front, e := FromEntries(entries[..|entries| - 1]), entries[|entries| - 1];
      if front.None? || !ValidEntry(e) || e.domain in front.value then None
      else Some(front.value[e.domain := e.position])
  }

  method Unmarshal(entries: seq<Entry>) returns (r: Option<Positions>)
    ensures r == FromEntries(entries)
  {
    var out: Positions := map[];
    for k := 0 to |entries|
      invariant FromEntries(entries[..k]) == Some(out)
    {
      var e := entries[k];
      assert entries[..k + 1][..k] == entries[..k];
      if !ValidEntry(e) || e.domain in out {
        FromEntriesFails(entries, k + 1);
        return None;
      }
      out := out[e.domain := e.position];
    }
    assert entries[..|entries|] == entries;
    return Some(out);
  }

  lemma {:induction false} FromEntriesFails(entries: seq<Entry>, k: nat)
    requires k <= |entries| && FromEntries(entries[..k]).None?
    ensures FromEntries(entries).None?
    decreases |entries|
  {
    if k < |entries| {
      assert entries[..|entries| - 1][..k] == entries[..k];
      FromEntriesFails(entries[..|entries| - 1], k);
    } else {
      assert entries[..k] == entries;
    }
  }

  /** DomainPositions.Entries: the map is visited in any order, then sorted. */
  method Entries(p: Positions) returns (r: Option<seq<Entry>>)
    ensures r.Some? <==> ValidPositions(p)
    ensures r.Some? ==> IsEntries(p, r.value)
  {
    var out: seq<Entry>, todo := [], p.Keys;
    while todo != {}
      invariant todo <= p.Keys && (forall d :: d in p && d !in todo ==> ValidEntry(Entry(d, p[d])))
      invariant forall e :: e in out <==> e.domain in p && e.domain !in todo && p[e.domain] == e.position
      invariant Distinct(out)
      decreases |todo|
    {
      var d :| d in todo;
      if !ValidEntry(Entry(d, p[d])) { return None; }
      todo := todo - {d};
      out := out + [Entry(d, p[d])];
    }
    var sorted := SortBy(out, EntryLess);
    EntryOrder();
    SortDistinct(out, EntryLess);
    return Some(sorted);
  }

  lemma LastIsLarger(entries: seq<Entry>, x: Entry)
    requires StrictlySortedBy(entries, EntryLess) && entries != [] && x in entries[..|entries| - 1]
    ensures x.domain != entries[|entries| - 1].domain
  {
    var i :| 0 <= i < |entries| - 1 && entries[i] == x;
    EntryOrder();
    assert EntryLess(x, entries[|entries| - 1]);
  }

  /** Reading back the entries of a map gives the map. */
  lemma {:induction false} EntriesRoundTrip(p: Positions, entries: seq<Entry>)
    requires ValidPositions(p) && IsEntries(p, entries)
    ensures FromEntries(entries) == Some(p)
    decreases |entries|
  {
    if entries == [] {
      assert forall d :: d in p ==> Entry(d, p[d]) in entries;
      assert p == map[];
    } else {
      var front, e := entries[..|entries| - 1], entries[|entries| - 1];
      var q := p - {e.domain};
      assert e in entries;
      assert IsEntries(q, front) by {
        forall x ensures x in front <==> x.domain in q && q[x.domain] == x.position {
          assert x in entries <==> x in front || x == e;
          if x in front { LastIsLarger(entries, x); }
        }
      }
      EntriesRoundTrip(q, front);
      assert q[e.domain := e.position] == p;
    }
  }

  /** What is read back holds exactly the listed entries. */
  lemma {:induction false} ReadEntries(entries: seq<Entry>)
    requires FromEntries(entries).Some?
    ensures ValidPositions(FromEntries(entries).value)
    ensures forall e ::
              e in entries <==>
                e.domain in FromEntries(entries).value && FromEntries(entries).value[e.domain] == e.position
  {
    if entries != [] {
      ReadEntries(entries[..|entries| - 1]);
      assert forall x :: x in entries <==> x in entries[..|entries| - 1] || x == entries[|entries| - 1];
    }
  }

  lemma EntriesUnique(p: Positions, a: seq<Entry>, b: seq<Entry>)
    requires IsEntries(p, a) && IsEntries(p, b)
    ensures a == b
  {
    EntryOrder();
    StrictUnique(a, b, EntryLess);
  }
}
