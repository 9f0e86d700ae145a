/**
 The resolver's cache of sixteen names. An entry remembers the low 32 bits of
 the millisecond clock, which is read as 64 bits when its age is worked out.
 */
module DnsCache {
  import opened Words

  const CACHE_SIZE: nat := 16
  const DEFAULT_TTL: uint32 := 300
  const MAX_TTL: uint32 := 86400

  datatype Entry = Entry(name: string, ip: uint32, ttl: uint32, timestamp: uint32, valid: bool)

  // ------------------------------------------------------------------- names

  function LowerChar(c: char): char {
    if 'A' <= c <= 'Z' then (c as int + 32) as char else c
  }

  /** Names are compared without regard to the case of ASCII letters. */
  function Lower(s: string): (r: string)
    ensures |r| == |s|
    ensures forall i :: 0 <= i < |s| ==> r[i] == LowerChar(s[i])
  {
    if s == [] then [] else [LowerChar(s[0])] + Lower(s[1..])
  }

  predicate Same(a: string, b: string) {
    Lower(a) == Lower(b)
  }

  /** The comparing loop: the first difference decides, and an end only meets an end. */
  method SameName(a: string, b: string) returns (same: bool)
    ensures same == Same(a, b)
  {
    hide Lower;
    var i := 0;
    while i < |a| && i < |b|
      invariant 0 <= i <= |a| && i <= |b|
      invariant forall j :: 0 <= j < i ==> LowerChar(a[j]) == LowerChar(b[j])
    {
      if LowerChar(a[i]) != LowerChar(b[i]) {
        Differ(a, b, i);
        return false;
      }
      i := i + 1;
    }
    same := i == |a| && i == |b|;
    Agree(a, b);
  }

  lemma Differ(a: string, b: string, i: nat)
    requires i < |a| && i < |b| && LowerChar(a[i]) != LowerChar(b[i])
    ensures !Same(a, b)
  {
    assert Lower(a)[i] != Lower(b)[i];
  }

  lemma Agree(a: string, b: string)
    ensures |a| != |b| ==> !Same(a, b)
    ensures |a| == |b| && (forall j :: 0 <= j < |a| ==> LowerChar(a[j]) == LowerChar(b[j])) ==> Same(a, b)
  {
    assert |Lower(a)| == |a| && |Lower(b)| == |b|;
  }

  // ---------------------------------------------------------------- the calls

  /** Seconds since the entry was made, as the code works them out. */
  function Age(e: Entry, now: uint64): nat {
    Sub64(now, e.timestamp) / 1000
  }

  predicate Expired(e: Entry, now: uint64) {
    e.ttl > 0 && Age(e, now) >= e.ttl
  }

  predicate Matches(e: Entry, name: string) {
    e.valid && Same(e.name, name)
  }

  function FirstMatch(c: seq<Entry>, name: string, i: nat): (r: nat)
    requires i <= |c|
    ensures i <= r <= |c|
    ensures r < |c| ==> Matches(c[r], name)
    ensures forall j :: i <= j < r ==> !Matches(c[j], name)
    decreases |c| - i
  {
    if i == |c| || Matches(c[i], name) then i else FirstMatch(c, name, i + 1)
  }

  /** The first valid entry of that name counts; one that has expired is dropped and nothing is found. */
  function Lookup(c: seq<Entry>, name: string, now: uint64): (seq<Entry>, Option<uint32>) {
    var i := FirstMatch(c, name, 0);
    if i == |c| then (c, None)
    else if Expired(c[i], now) then (c[i := c[i].(valid := false)], None)
    else (c, Some(c[i].ip))
  }

  function FirstInvalid(c: seq<Entry>, i: nat): (r: nat)
    requires i <= |c|
    ensures i <= r <= |c|
    ensures r < |c| ==> !c[r].valid
    ensures forall j :: i <= j < r ==> c[j].valid
    decreases |c| - i
  {
    if i == |c| || !c[i].valid then i else FirstInvalid(c, i + 1)
  }

  /** The slot a new entry goes to: the first that is not valid, or slot 0. */
  function Victim(c: seq<Entry>): nat {
    var i := FirstInvalid(c, 0);
    if i == |c| then 0 else i
  }

  function Stamp(now: uint64): uint32 {
    now % 0x1_0000_0000
  }

  function Add(c: seq<Entry>, name: string, ip: uint32, ttl: uint32, now: uint64): seq<Entry>
    requires c != []
  {
    c[Victim(c) := Entry(name, ip, ttl, Stamp(now), true)]
  }

  /** The lifetime dns_resolve gives an answer: five minutes for none, a day at most. */
  function Lifetime(ttl: uint32): (r: uint32)
    ensures 1 <= r <= MAX_TTL
  {
    if ttl == 0 then DEFAULT_TTL else if ttl > MAX_TTL then MAX_TTL else ttl
  }

  /**
   dns_resolve from the cache on: reply is what the network answered, if it
   came to that, asked at one time and answered at another.
   */
  function Resolve(c: seq<Entry>, name: string, asked: uint64, reply: Option<(uint32, uint32)>, answered: uint64):
      (seq<Entry>, uint32)
    requires c != []
  {
    var (d, hit) := Lookup(c, name, asked);
    if hit.Some? then (d, hit.value)
    else if reply.Some? && reply.value.0 != 0 then
      (Add(d, name, reply.value.0, Lifetime(reply.value.1), answered), reply.value.0)
    else (d, 0)
  }

  // -------------------------------------------------------------- properties

  /** No name is cached twice, and every lifetime is one that dns_resolve gives. */
  ghost predicate Unique(c: seq<Entry>) {
    && |c| == CACHE_SIZE
    && (forall i, j :: 0 <= i < j < |c| && c[i].valid && c[j].valid ==> !Same(c[i].name, c[j].name))
    && forall i :: 0 <= i < |c| && c[i].valid ==> 1 <= c[i].ttl <= MAX_TTL
  }

  /** A look-up that finds nothing leaves no entry of that name. */
  lemma MissLeavesNone(c: seq<Entry>, name: string, now: uint64)
    requires Unique(c) && Lookup(c, name, now).1 == None
    ensures Unique(Lookup(c, name, now).0)
    ensures forall i :: 0 <= i < CACHE_SIZE ==> !Matches(Lookup(c, name, now).0[i], name)
  {
    var i := FirstMatch(c, name, 0);
    if i < |c| {
      forall j | i < j < |c| ensures !Matches(c[j], name) {
        assert c[j].valid ==> !Same(c[i].name, c[j].name);
      }
    }
  }

  /** Every call of dns_resolve keeps names unique: it adds a name only when the cache no longer has it. */
  lemma ResolveKeepsUnique(c: seq<Entry>, name: string, asked: uint64, reply: Option<(uint32, uint32)>, answered: uint64)
    requires Unique(c)
    ensures Unique(Resolve(c, name, asked, reply, answered).0)
  {
    if Lookup(c, name, asked).1 == None {
      MissLeavesNone(c, name, asked);
      hide Lookup, Lower, Lifetime;
    }
  }

  lemma FoundAlone(c: seq<Entry>, i: nat, name: string)
    requires i < |c| && Matches(c[i], name) && forall j :: 0 <= j < |c| && j != i ==> !Matches(c[j], name)
    ensures FirstMatch(c, name, 0) == i
  {
  }

  /** An entry has not expired exactly if the clock had not wrapped 32 bits when it was made and its time is not up. */
  lemma FreshIff(e: Entry, made: uint64, now: uint64)
    requires e.timestamp == Stamp(made) && made <= now && 1 <= e.ttl <= MAX_TTL
    ensures !Expired(e, now) <==> made < 0x1_0000_0000 && (now - made) / 1000 < e.ttl
  {
    SubSmall(now, Stamp(made));
    if made >= 0x1_0000_0000 {
      assert made - Stamp(made) >= 0x1_0000_0000;
    }
  }

  lemma SubSmall(a: uint64, b: uint64)
    requires b <= a
    ensures Sub64(a, b) == a - b
  {
  }

  /**
   What dns_resolve has just fetched is found again under any spelling of the
   name, until its lifetime is over, if the clock had not passed 2^32
   milliseconds when it was cached. From then on, 49 days after the start, no
   new entry is ever found.
   */
  lemma CachedAnswerFoundIff(c: seq<Entry>, name: string, asked: uint64, ip: uint32, ttl: uint32, made: uint64,
                             again: string, now: uint64)
    requires Unique(c) && Lookup(c, name, asked).1 == None && ip != 0 && made <= now && Same(again, name)
    ensures
      var (d, answer) := Resolve(c, name, asked, Some((ip, ttl)), made);
      var seconds := if ttl == 0 then 300 else Min(ttl, 86400);
      answer == ip &&
      Lookup(d, again, now).1 == (if made < 0x1_0000_0000 && (now - made) / 1000 < seconds then Some(ip) else None)
  {
    assert Lifetime(ttl) == if ttl == 0 then 300 else Min(ttl, 86400);
    MissLeavesNone(c, name, asked);
    var d0 := Lookup(c, name, asked).0;
    var v := Victim(d0);
    var e := Entry(name, ip, Lifetime(ttl), Stamp(made), true);
    var d := d0[v := e];
    forall j | 0 <= j < |d| && j != v ensures !Matches(d[j], again) { assert !Matches(d0[j], name); }
    FoundAlone(d, v, again);
    FreshIff(e, made, now);
    hide FirstMatch, Expired, Lower, Stamp, Lifetime, Victim;
  }

  /** While the cached answer is found it is the result, whatever the network would say; after that the network's is. */
  lemma CachedAnswerIsGiven(c: seq<Entry>, name: string, now: uint64, reply: Option<(uint32, uint32)>, answered: uint64)
    requires c != []
    ensures
      var hit := Lookup(c, name, now).1;
      Resolve(c, name, now, reply, answered).1 == if hit.Some? then hit.value else if reply.Some? then reply.value.0 else 0
    ensures Lookup(c, name, now).1.Some? ==> Resolve(c, name, now, reply, answered).0 == c
  {
  }

  /** The entry at slot v, which is not the one of that name before or after, does not matter to a look-up of the name. */
  lemma {:induction false} FirstMatchElsewhere(c: seq<Entry>, v: nat, e: Entry, name: string, i: nat)
    requires v < |c| && i <= |c| && !Matches(c[v], name) && !Matches(e, name)
    ensures FirstMatch(c[v := e], name, i) == FirstMatch(c, name, i)
    decreases |c| - i
  {
    hide Matches;
    if i < |c| && !Matches(c[i], name) { FirstMatchElsewhere(c, v, e, name, i + 1); }
  }

  /**
   A new answer takes no other name's place as long as a slot is not valid. In
   a full cache it takes the place of the entry in slot 0, and only of that one.
   */
  lemma OthersStayCached(c: seq<Entry>, name: string, ip: uint32, ttl: uint32, made: uint64, other: string, now: uint64)
    requires c != [] && !Same(name, other)
    requires (exists i :: 0 <= i < |c| && !c[i].valid) || !Same(c[0].name, other)
    ensures Lookup(Add(c, name, ip, ttl, made), other, now).1 == Lookup(c, other, now).1
  {
    var v := Victim(c);
    FirstMatchElsewhere(c, v, Entry(name, ip, ttl, Stamp(made), true), other, 0);
    hide FirstMatch, Lower;
  }

  // ---------------------------------------------------------------- in place

  class Cache {
    const entries: array<Entry>

    ghost predicate Valid() reads this, entries {
      entries.Length == CACHE_SIZE
    }

    constructor ()
      ensures Valid() && fresh(entries) && Unique(entries[..])
      ensures forall name, now :: Lookup(entries[..], name, now).1 == None
    {
      entries := new Entry[CACHE_SIZE](_ => Entry("", 0, 0, 0, false));
    }

    method Find(name: string, now: uint64) returns (hit: Option<uint32>)
      requires Valid()
      modifies entries
      ensures (entries[..], hit) == Lookup(old(entries[..]), name, now)
    {
      var i := 0;
      while i < CACHE_SIZE
        invariant 0 <= i <= CACHE_SIZE && entries[..] == old(entries[..])
        invariant FirstMatch(entries[..], name, 0) == FirstMatch(entries[..], name, i)
      {
        if entries[i].valid {
          var same := SameName(entries[i].name, name);
          if same {
            var elapsed := Sub64(now, entries[i].timestamp) / 1000;
            if entries[i].ttl > 0 && elapsed >= entries[i].ttl {
              entries[i] := entries[i].(valid := false);
              assert entries[..] == old(entries[..])[i := old(entries[i]).(valid := false)];
              return None;
            }
            return Some(entries[i].ip);
          }
        }
        i := i + 1;
      }
      hit := None;
    }

    method Insert(name: string, ip: uint32, ttl: uint32, now: uint64)
      requires Valid()
      modifies entries
      ensures entries[..] == Add(old(entries[..]), name, ip, ttl, now)
    {
      var i := 0;
      while i < CACHE_SIZE
        invariant 0 <= i <= CACHE_SIZE && entries[..] == old(entries[..])
        invariant FirstInvalid(entries[..], 0) == FirstInvalid(entries[..], i)
      {
        if !entries[i].valid {
          entries[i] := Entry(name, ip, ttl, Stamp(now), true);
          return;
        }
        i := i + 1;
      }
      entries[0] := Entry(name, ip, ttl, Stamp(now), true);
    }
  }
}
