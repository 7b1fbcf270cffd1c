/**
  A token source that refreshes on demand over a store that may lose a write or report a failure after saving. Which
  credential each exchange presents is section 6 of RFC 6749; what an exchange returns is arbitrary.
 */
module OAuthSource {
  import opened RowModel

  datatype Token = Token(access: string, refresh: string, expires: int)

  /** One request to the token endpoint. */
  datatype Exchange = Exchange(presented: Token, result: Option<Token>)

  /** The credential of the last successful of the first n exchanges, or the seed. */
  function LatestTo(seed: Token, log: seq<Exchange>, n: nat): Token
    requires n <= |log|
  {
    if n == 0 then seed else if log[n - 1].result.Some? then log[n - 1].result.value else LatestTo(seed, log, n - 1)
  }

  function Latest(seed: Token, log: seq<Exchange>): Token { LatestTo(seed, log, |log|) }

  /** Every exchange presented the latest credential. */
  ghost predicate PresentsLatest(seed: Token, log: seq<Exchange>) {
    forall i :: 0 <= i < |log| ==> log[i].presented == LatestTo(seed, log, i)
  }

  lemma {:induction false} LatestPrefix(seed: Token, log: seq<Exchange>, more: seq<Exchange>, n: nat)
    requires log <= more && n <= |log|
    ensures LatestTo(seed, more, n) == LatestTo(seed, log, n)
  {
    if n > 0 { LatestPrefix(seed, log, more, n - 1); }
  }

  lemma PresentsAppend(seed: Token, log: seq<Exchange>, e: Exchange)
    requires PresentsLatest(seed, log) && e.presented == Latest(seed, log)
    ensures PresentsLatest(seed, log + [e])
    ensures Latest(seed, log + [e]) == if e.result.Some? then e.result.value else Latest(seed, log)
  {
    var more := log + [e];
    forall i | 0 <= i <= |log| ensures LatestTo(seed, more, i) == LatestTo(seed, log, i) {
      LatestPrefix(seed, log, more, i);
    }
  }

  // ---- rotation ----

  /** The endpoint rotates: every refresh token it issues is new. */
  ghost predicate Rotates(seed: Token, log: seq<Exchange>) {
    && (forall i :: 0 <= i < |log| && log[i].result.Some? ==> log[i].result.value.refresh != seed.refresh)
    && forall i, j :: 0 <= i < j < |log| && log[i].result.Some? && log[j].result.Some? ==>
                        log[i].result.value.refresh != log[j].result.value.refresh
  }

  /** The latest credential is the seed or came from an earlier exchange, no earlier than any other success. */
  lemma {:induction false} LatestFrom(seed: Token, log: seq<Exchange>, n: nat) returns (k: int)
    requires n <= |log|
    ensures -1 <= k < n
    ensures if k < 0 then LatestTo(seed, log, n) == seed else log[k].result == Some(LatestTo(seed, log, n))
    ensures forall i :: k < i < n ==> log[i].result.None?
  {
    if n == 0 {
      k := -1;
    } else if log[n - 1].result.Some? {
      k := n - 1;
    } else {
      k := LatestFrom(seed, log, n - 1);
    }
  }

  /** Once an exchange succeeded, the refresh token it presented is never presented again. */
  lemma NeverAgain(seed: Token, log: seq<Exchange>, i: nat, j: nat)
    requires PresentsLatest(seed, log) && Rotates(seed, log) && i < j < |log| && log[i].result.Some?
    ensures log[j].presented.refresh != log[i].presented.refresh
  {
    var a := LatestFrom(seed, log, i);
    var b := LatestFrom(seed, log, j);
  }

  // ---- the source ----

  /** A successful exchange whose saving has not been confirmed. */
  datatype Unsaved = Unsaved(previous: Token, next: Token)

  const EARLY := 30

  class Source {
    const refreshGrant: bool
    const seed: Token
    var stored: Token
    /** A result the store kept after failing to write it. */
    var retained: Option<Token>
    var pending: Option<Unsaved>
    var clock: int
    ghost var log: seq<Exchange>

    /** The latest credential is in the store, or held back beside the stored one it replaces; what the store kept is
        the latest. */
    ghost predicate Valid()
      reads this
    {
      && PresentsLatest(seed, log) && (pending.Some? ==> pending.value.next == Latest(seed, log))
      && (stored == Latest(seed, log) || (pending.Some? && pending.value.previous == stored))
      && (retained.Some? ==> retained.value == Latest(seed, log))
    }

    constructor (refreshGrant: bool, seed: Token)
      ensures Valid() && stored == seed && log == []
    {
      this.refreshGrant, this.seed, stored := refreshGrant, seed, seed;
      retained, pending, clock, log := None, None, 0, [];
    }

    method Now() returns (now: int)
      modifies this`clock
      ensures now == clock >= old(clock)
    {
      now :| now >= clock;
      clock := now;
    }

    /** What the store's transaction calls with the stored token. */
    method Refresh(rejected: string) returns (r: Option<Token>)
      requires Valid() && retained.None?
      modifies this`pending, this`clock, this`log
      ensures Valid() && old(log) <= log && |log| <= |old(log)| + 1
      ensures r.Some? ==>
                r.value == Latest(seed, log) && (r.value == stored || pending == Some(Unsaved(stored, r.value)))
      ensures |log| > |old(log)| ==> log[|old(log)|].presented == stored && (refreshGrant ==> stored.refresh != "")
      ensures |log| > |old(log)| ==> stored.access == "" || stored.access == rejected || clock + EARLY >= stored.expires
    {
      var canceled: bool := *;
      if canceled { return None; }
      if pending.Some? {
        if stored == pending.value.previous { return Some(pending.value.next); }
        pending := None;
      }
      var now := Now();
      if stored.access != "" && stored.access != rejected && now + EARLY < stored.expires { return Some(stored); }
      if refreshGrant && stored.refresh == "" { return None; }
      var result: Option<Token> := *;
      PresentsAppend(seed, log, Exchange(stored, result));
      log := log + [Exchange(stored, result)];
      if result.None? { return None; }
      pending := Some(Unsaved(stored, result.value));
      return result;
    }

    /**
      The store: success means saved. A failure may come before the callback, after losing the write, or after saving
      it; a result that was not written may be kept, and saved and returned later without the callback and so without an
      exchange.
     */
    method Update(rejected: string) returns (r: Option<Token>, ghost reused: bool)
      requires Valid()
      modifies this
      ensures Valid() && old(log) <= log && |log| <= |old(log)| + 1
      ensures r.Some? ==> stored == r.value == Latest(seed, log)
      ensures reused ==> log == old(log) && old(retained).Some? && (r.Some? ==> r == old(retained))
      ensures r.Some? && !reused ==> retained.None?
    {
      reused := false;
      var reached, again: bool := *, *;
      if !reached { return None, false; }
      if retained.Some? && again {
        r := Save(retained.value);
        return r, true;
      }
      retained := None;
      r := Refresh(rejected);
      if r.Some? { r := Save(r.value); }
    }

    /** The write-back of the latest credential. */
    method Save(token: Token) returns (r: Option<Token>)
      requires Valid() && token == Latest(seed, log)
      modifies this`stored, this`retained
      ensures Valid() && (stored == old(stored) || stored == token)
      ensures r.Some? ==> r.value == token == stored && retained.None?
    {
      var saves, confirms, keeps: bool := *, *, *;
      if !saves {
        retained := if keeps then Some(token) else None;
        return None;
      }
      stored := token;
      retained := if confirms || !keeps then None else Some(token);
      return if confirms then Some(token) else None;
    }

    /**
      Token and Refresh. Every token returned is the stored one, is the latest, and has not expired; one call makes at
      most two exchanges; and whatever persistence did, each exchange presented the latest credential.
     */
    method TokenFor(rejected: string) returns (r: Option<Token>)
      requires Valid()
      modifies this
      ensures Valid() && old(log) <= log && |log| <= |old(log)| + 2
      ensures r.Some? ==> r.value == stored == Latest(seed, log) && clock < r.value.expires && pending.None?
    {
      var canceled: bool := *;
      if canceled { return None; }
      for k := 0 to 2
        invariant Valid() && old(log) <= log && |log| <= |old(log)| + k
      {
        var token, _ := Update(rejected);
        if token.None? { return None; }
        pending := None;
        var now := Now();
        if now < token.value.expires { return token; }
      }
      return None;
    }

    /** Refresh needs the rejected access token. */
    method RefreshToken(rejected: string) returns (r: Option<Token>)
      requires Valid()
      modifies this
      ensures Valid() && old(log) <= log && |log| <= |old(log)| + 2
      ensures r.Some? ==> rejected != "" && r.value == stored == Latest(seed, log) && clock < r.value.expires
    {
      if rejected == "" { return None; }
      r := TokenFor(rejected);
    }
  }
}
