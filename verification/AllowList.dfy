/** Matching an address against a delimiter-separated allow-list: `trim_copy`,
    `constant_time_equal` and `address_matches_environment_allowlist`, over bytes.
 */
module AllowList {
  import opened Bytes

  /** C's `isspace`: space, tab, newline, vertical tab, form feed, carriage return. */
  predicate IsSpace(b: byte) {
    b == 32 || 9 <= b <= 13
  }

  /** The delimiter set: comma, semicolon, space, tab, carriage return, newline. */
  predicate IsSeparator(b: byte) {
    b == 44 || b == 59 || b == 32 || b == 9 || b == 13 || b == 10
  }

  ghost predicate NulFree(s: seq<byte>) {
    0 !in s
  }

  // ---------- trimming ----------

  function FirstSolid(s: seq<byte>): (k: nat)
    ensures k <= |s| && (forall i | 0 <= i < k :: IsSpace(s[i])) && (k < |s| ==> !IsSpace(s[k]))
  {
    if s == [] || !IsSpace(s[0]) then 0 else 1 + FirstSolid(s[1..])
  }

  function AfterLastSolid(s: seq<byte>): (k: nat)
    ensures k <= |s| && (forall i | k <= i < |s| :: IsSpace(s[i])) && (k > 0 ==> !IsSpace(s[k - 1]))
  {
    if s == [] then 0 else if !IsSpace(s[|s| - 1]) then |s| else AfterLastSolid(s[..|s| - 1])
  }

  function Trim(s: seq<byte>): seq<byte> {
    if FirstSolid(s) == |s| || AfterLastSolid(s) == 0 then []
    else if FirstSolid(s) <= AfterLastSolid(s) then s[FirstSolid(s)..AfterLastSolid(s)]
    else assert false; []
  }

  /** Space, tab, line feed, vertical tab, form feed and carriage return only. */
  ghost predicate AllSpace(s: seq<byte>) {
    forall i | 0 <= i < |s| :: s[i] in {32, 9, 10, 11, 12, 13}
  }

  ghost predicate Solid(s: seq<byte>) {
    s != [] && s[0] !in {32, 9, 10, 11, 12, 13} && s[|s| - 1] !in {32, 9, 10, 11, 12, 13}
  }

  /** Trimming removes the surrounding spaces and nothing else: `t` is the trimmed
      text exactly when it is what stands between two runs of spaces and neither
      starts nor ends with one, or everything is space. */
  lemma TrimMeaning(l: seq<byte>, t: seq<byte>, r: seq<byte>)
    requires AllSpace(l) && AllSpace(r) && (Solid(t) || t == [])
    ensures Trim(l + t + r) == t
  {
    var s := l + t + r;
    if t == [] {
      assert forall i | 0 <= i < |s| :: IsSpace(s[i]);
    } else {
      assert s[|l|] == t[0] && s[|l| + |t| - 1] == t[|t| - 1];
      assert FirstSolid(s) == |l|;
      assert AfterLastSolid(s) == |l| + |t|;
    }
  }

  // ---------- comparison ----------

  function ByteAt(s: seq<byte>, i: nat): byte {
    if i < |s| then s[i] else 0
  }

  function Max(a: nat, b: nat): nat {
    if a < b then b else a
  }

  /** What the accumulating comparison decides for arbitrary texts: the lengths agree
      modulo 256 and the bytes agree once the shorter text is padded with NULs. */
  ghost predicate Alike(a: seq<byte>, b: seq<byte>) {
    |a| % 256 == |b| % 256 && forall i | 0 <= i < Max(|a|, |b|) :: ByteAt(a, i) == ByteAt(b, i)
  }

  method ConstantTimeEqual(lhs: seq<byte>, rhs: seq<byte>) returns (matched: bool)
    ensures matched <==> Alike(lhs, rhs)
  {
    var size := Max(|lhs|, |rhs|);
    var difference: bv8 := Bits(|lhs| % 256) ^ Bits(|rhs| % 256);
    XorZero(|lhs| % 256, |rhs| % 256);
    for index := 0 to size
      invariant difference == 0 <==>
        |lhs| % 256 == |rhs| % 256 && forall i | 0 <= i < index :: ByteAt(lhs, i) == ByteAt(rhs, i)
    {
      var l, r := ByteAt(lhs, index), ByteAt(rhs, index);
      XorZero(l, r);
      BitsOrZero(difference, Bits(l) ^ Bits(r));
      difference := difference | (Bits(l) ^ Bits(r));
    }
    matched := difference == 0;
  }

  function Nuls(n: nat): (r: seq<byte>)
    ensures |r| == n && forall i | 0 <= i < n :: r[i] == 0
  {
    seq(n, i => 0)
  }

  /** `a` is `b` followed by NULs, their number a multiple of 256. */
  ghost predicate Padded(a: seq<byte>, b: seq<byte>) {
    exists k: nat :: a == b + Nuls(256 * k)
  }

  lemma PaddedAlike(a: seq<byte>, b: seq<byte>)
    requires Padded(a, b)
    ensures Alike(a, b) && Alike(b, a)
  {
    var k: nat :| a == b + Nuls(256 * k);
    assert |a| == |b| + 256 * k;
    assert |a| % 256 == |b| % 256;
  }

  lemma AlikePadded(a: seq<byte>, b: seq<byte>)
    requires Alike(a, b) && |b| <= |a|
    ensures Padded(a, b)
  {
    var k := (|a| - |b|) / 256;
    assert |a| - |b| == 256 * k;
    forall i | 0 <= i < |a| ensures a[i] == (b + Nuls(256 * k))[i] {
      assert ByteAt(a, i) == ByteAt(b, i);
    }
    assert a == b + Nuls(256 * k);
  }

  lemma AlikeSymmetric(a: seq<byte>, b: seq<byte>)
    requires Alike(a, b)
    ensures Alike(b, a)
  {
  }

  /** The comparison accepts exactly the pairs of which one text is the other followed by
      NULs, their number a multiple of 256. */
  lemma AlikeIff(a: seq<byte>, b: seq<byte>)
    ensures Alike(a, b) <==> Padded(a, b) || Padded(b, a)
  {
    hide Alike, Padded;
    if Padded(a, b) {
      PaddedAlike(a, b);
    }
    if Padded(b, a) {
      PaddedAlike(b, a);
    }
    if Alike(a, b) {
      if |b| <= |a| {
        AlikePadded(a, b);
      } else {
        AlikeSymmetric(a, b);
        AlikePadded(b, a);
      }
    }
  }

  lemma NulsShow(b: seq<byte>, k: nat)
    requires k > 0
    ensures !NulFree(b + Nuls(256 * k))
  {
    assert (b + Nuls(256 * k))[|b|] == 0;
  }

  lemma PaddedToNulFree(a: seq<byte>, b: seq<byte>)
    requires NulFree(a)
    ensures Padded(a, b) <==> a == b
  {
    assert b + Nuls(256 * 0) == b;
    if Padded(a, b) {
      var k: nat :| a == b + Nuls(256 * k);
      if k > 0 {
        NulsShow(b, k);
      }
    }
  }

  /** Against a NUL-free text only the other one can be padded. */
  lemma AlikeToNulFree(a: seq<byte>, b: seq<byte>)
    requires NulFree(b)
    ensures Alike(a, b) <==> Padded(a, b)
  {
    hide Alike, Padded;
    AlikeIff(a, b);
    PaddedToNulFree(b, a);
    PaddedAlikeSelf(a, b);
  }

  lemma PaddedAlikeSelf(a: seq<byte>, b: seq<byte>)
    ensures a == b ==> Padded(a, b)
  {
    assert a + Nuls(256 * 0) == a;
  }

  /** For NUL-free texts of any length the comparison is equality, even though only
      eight bits of the lengths enter it. */
  lemma AlikeIsEquality(a: seq<byte>, b: seq<byte>)
    requires NulFree(a) && NulFree(b)
    ensures Alike(a, b) <==> a == b
  {
    hide Alike, Padded;
    AlikeToNulFree(a, b);
    PaddedToNulFree(a, b);
  }

  /** With NUL bytes it is not: 256 of them compare equal to nothing at all. */
  lemma NulsBreakEquality()
    ensures exists a: seq<byte>, b: seq<byte> :: Alike(a, b) && a != b
  {
    var a := Nuls(256);
    assert a == [] + Nuls(256 * 1);
    assert Padded(a, []);
    AlikeIff(a, []);
  }

  /** `authenticate_user`: the configured texts come from the environment and hold no NUL.  A user
      is let in exactly when both are set and each input is the configured text, perhaps followed
      by a multiple of 256 NULs. */
  method AuthenticateUser(username: seq<byte>, password: seq<byte>, user: seq<byte>, secret: seq<byte>)
    returns (authenticated: bool)
    requires NulFree(user) && NulFree(secret)
    ensures authenticated <==> user != [] && secret != [] && Padded(username, user) && Padded(password, secret)
  {
    hide Alike, Padded;
    var hasRuntimeCredentials := user != [] && secret != [];
    var usernameMatches := ConstantTimeEqual(username, user);
    var passwordMatches := ConstantTimeEqual(password, secret);
    AlikeToNulFree(username, user);
    AlikeToNulFree(password, secret);
    authenticated := hasRuntimeCredentials && usernameMatches && passwordMatches;
  }

  // ---------- the list ----------

  /** `find_first_of(delimiters, start)`, with the length standing for "none". */
  function FindSeparator(s: seq<byte>, start: nat): (k: nat)
    requires start <= |s|
    ensures start <= k <= |s| && (forall i | start <= i < k :: !IsSeparator(s[i])) && (k < |s| ==> IsSeparator(s[k]))
    decreases |s| - start
  {
    if start == |s| || IsSeparator(s[start]) then start else FindSeparator(s, start + 1)
  }

  /** The pieces between separators from `start` on; there is always at least one. */
  function SegmentsFrom(s: seq<byte>, start: nat): seq<seq<byte>>
    requires start <= |s|
    decreases |s| - start
  {
    var k := FindSeparator(s, start);
    [s[start..k]] + if k == |s| then [] else SegmentsFrom(s, k + 1)
  }

  function Segments(s: seq<byte>): seq<seq<byte>> {
    SegmentsFrom(s, 0)
  }

  ghost predicate Hit(ip: seq<byte>, segment: seq<byte>) {
    Trim(segment) != [] && Alike(ip, Trim(segment))
  }

  ghost predicate Listed(ip: seq<byte>, segments: seq<seq<byte>>) {
    exists i :: 0 <= i < |segments| && Hit(ip, segments[i])
  }

  lemma ListedMore(ip: seq<byte>, first: seq<byte>, rest: seq<seq<byte>>)
    ensures Listed(ip, [first] + rest) <==> Hit(ip, first) || Listed(ip, rest)
  {
    hide Hit;
    var all := [first] + rest;
    assert all[0] == first;
    if Listed(ip, rest) {
      var i :| 0 <= i < |rest| && Hit(ip, rest[i]);
      assert all[i + 1] == rest[i];
    }
    if Listed(ip, all) {
      var i :| 0 <= i < |all| && Hit(ip, all[i]);
      assert i > 0 ==> all[i] == rest[i - 1];
    }
  }

  /** Some segment from `start` on is hit, told one segment at a time. */
  ghost predicate Pending(ip: seq<byte>, s: seq<byte>, start: nat)
    requires start <= |s|
    decreases |s| - start
  {
    var k := FindSeparator(s, start);
    Hit(ip, s[start..k]) || (k < |s| && Pending(ip, s, k + 1))
  }

  lemma NoneListed(ip: seq<byte>)
    ensures !Listed(ip, [])
  {
  }

  lemma {:induction false} PendingIsListed(ip: seq<byte>, s: seq<byte>, start: nat)
    requires start <= |s|
    ensures Pending(ip, s, start) <==> Listed(ip, SegmentsFrom(s, start))
    decreases |s| - start
  {
    hide Hit, Listed, FindSeparator;
    var k := FindSeparator(s, start);
    var later := if k == |s| then [] else SegmentsFrom(s, k + 1);
    ListedMore(ip, s[start..k], later);
    NoneListed(ip);
    if k < |s| {
      PendingIsListed(ip, s, k + 1);
    }
  }

  method IsHit(ip: seq<byte>, segment: seq<byte>) returns (hit: bool)
    ensures hit <==> Hit(ip, segment)
  {
    var candidate := Trim(segment);
    hit := false;
    if candidate != [] {
      hit := ConstantTimeEqual(ip, candidate);
    }
  }

  /** True exactly when some segment, trimmed, is non-empty and compares equal. */
  method AddressMatches(ip: seq<byte>, list: seq<byte>) returns (matched: bool)
    ensures matched <==> Listed(ip, Segments(list))
  {
    hide Hit, Listed, FindSeparator;
    var start := 0;
    matched := false;
    while start <= |list|
      invariant 0 <= start <= |list|
      invariant Pending(ip, list, 0) <==> matched || Pending(ip, list, start)
    {
      var separator := FindSeparator(list, start);
      var hit := IsHit(ip, list[start..separator]);
      if hit {
        matched := true;
      }
      if separator == |list| {
        break;
      }
      start := separator + 1;
    }
    PendingIsListed(ip, list, 0);
  }

  /** The address is some trimmed, non-empty segment followed by `256 * k` NULs. */
  ghost predicate Entered(ip: seq<byte>, segments: seq<seq<byte>>, k: nat) {
    exists i :: 0 <= i < |segments| && Trim(segments[i]) != [] && ip == Trim(segments[i]) + Nuls(256 * k)
  }

  /** For every address and every list the environment can hold: the matcher accepts exactly the
      non-empty trimmed segments, each followed by any multiple of 256 NULs. */
  lemma ListedIff(ip: seq<byte>, list: seq<byte>)
    requires NulFree(list)
    ensures Listed(ip, Segments(list)) <==> exists k :: Entered(ip, Segments(list), k)
  {
    hide Alike, Padded, Trim, SegmentsFrom;
    var segments := Segments(list);
    forall i | 0 <= i < |segments| ensures Hit(ip, segments[i]) <==> HitExactly(ip, segments[i]) {
      SegmentsWithin(list, 0, i);
      AlikeToNulFree(ip, Trim(segments[i]));
    }
    HitsAreEntered(ip, segments);
  }

  ghost predicate HitExactly(ip: seq<byte>, segment: seq<byte>) {
    Trim(segment) != [] && Padded(ip, Trim(segment))
  }

  lemma HitsAreEntered(ip: seq<byte>, segments: seq<seq<byte>>)
    ensures (exists i :: 0 <= i < |segments| && HitExactly(ip, segments[i])) <==> exists k :: Entered(ip, segments, k)
  {
    hide Trim;
    if i :| 0 <= i < |segments| && HitExactly(ip, segments[i]) {
      var k: nat :| ip == Trim(segments[i]) + Nuls(256 * k);
      assert Entered(ip, segments, k);
    }
    if k: nat :| Entered(ip, segments, k) {
      var i :| 0 <= i < |segments| && Trim(segments[i]) != [] && ip == Trim(segments[i]) + Nuls(256 * k);
      assert Padded(ip, Trim(segments[i]));
      assert HitExactly(ip, segments[i]);
    }
  }

  /** So it decides membership exactly for the addresses that are no entry followed by a
      positive multiple of 256 NULs. */
  lemma MatcherDecidesMembershipIff(ip: seq<byte>, list: seq<byte>)
    requires NulFree(list)
    ensures (Listed(ip, Segments(list)) <==> Entered(ip, Segments(list), 0)) <==>
            !exists k :: k > 0 && Entered(ip, Segments(list), k)
  {
    hide Entered, Listed, SegmentsFrom;
    ListedIff(ip, list);
    if Entered(ip, Segments(list), 0) {
      forall k | k > 0 ensures !Entered(ip, Segments(list), k) {
        NoLongerEntry(ip, list, k);
      }
    }
  }

  /** An entry has no NUL, so an address is not both an entry and a padded one. */
  lemma NoLongerEntry(ip: seq<byte>, list: seq<byte>, k: nat)
    requires NulFree(list) && Entered(ip, Segments(list), 0) && k > 0
    ensures !Entered(ip, Segments(list), k)
  {
    hide Trim, SegmentsFrom;
    var segments := Segments(list);
    var i :| 0 <= i < |segments| && Trim(segments[i]) != [] && ip == Trim(segments[i]) + Nuls(256 * 0);
    SegmentsWithin(list, 0, i);
    assert Nuls(256 * 0) == [];
    assert NulFree(ip);
    if Entered(ip, segments, k) {
      var j :| 0 <= j < |segments| && Trim(segments[j]) != [] && ip == Trim(segments[j]) + Nuls(256 * k);
      NulsShow(Trim(segments[j]), k);
    }
  }

  /** The input that shows it: an entry followed by 256 NULs is accepted. */
  lemma PaddedEntryIsListed(list: seq<byte>, i: nat)
    requires NulFree(list) && i < |Segments(list)| && Trim(Segments(list)[i]) != []
    ensures var ip := Trim(Segments(list)[i]) + Nuls(256);
      Listed(ip, Segments(list)) && !Entered(ip, Segments(list), 0)
  {
    hide Trim, SegmentsFrom, Listed;
    var ip := Trim(Segments(list)[i]) + Nuls(256);
    assert Nuls(256 * 1) == Nuls(256);
    assert Entered(ip, Segments(list), 1);
    ListedIff(ip, list);
    if Entered(ip, Segments(list), 0) {
      NoLongerEntry(ip, list, 1);
    }
  }

  /** For NUL-free addresses the matcher decides membership. */
  lemma ListedIsMembership(ip: seq<byte>, list: seq<byte>)
    requires NulFree(ip) && NulFree(list)
    ensures Listed(ip, Segments(list)) <==>
      ip != [] && exists i :: 0 <= i < |Segments(list)| && Trim(Segments(list)[i]) == ip
  {
    hide Alike, Trim, SegmentsFrom;
    forall i | 0 <= i < |Segments(list)|
      ensures Hit(ip, Segments(list)[i]) <==> ip != [] && Trim(Segments(list)[i]) == ip
    {
      SegmentsWithin(list, 0, i);
      AlikeIsEquality(ip, Trim(Segments(list)[i]));
    }
  }

  lemma {:induction false} SegmentsWithin(s: seq<byte>, start: nat, i: nat)
    requires NulFree(s) && start <= |s| && i < |SegmentsFrom(s, start)|
    ensures NulFree(SegmentsFrom(s, start)[i]) && NulFree(Trim(SegmentsFrom(s, start)[i]))
    decreases |s| - start
  {
    hide Trim, FindSeparator, NulFree;
    var k := FindSeparator(s, start);
    if k < |s| && i > 0 {
      SegmentsWithin(s, k + 1, i - 1);
    } else {
      SliceNulFree(s, start, k);
      TrimNulFree(s[start..k]);
    }
  }

  lemma SliceNulFree(s: seq<byte>, i: nat, j: nat)
    requires NulFree(s) && i <= j <= |s|
    ensures NulFree(s[i..j])
  {
  }

  lemma TrimNulFree(s: seq<byte>)
    requires NulFree(s)
    ensures NulFree(Trim(s))
  {
    hide FirstSolid, AfterLastSolid;
    if FirstSolid(s) <= AfterLastSolid(s) {
      SliceNulFree(s, FirstSolid(s), AfterLastSolid(s));
    }
  }

  /** Entries written one after another, each followed by a run of separators. */
  function Join(entries: seq<seq<byte>>, gaps: seq<seq<byte>>): seq<byte>
    requires |entries| == |gaps|
  {
    if entries == [] then [] else entries[0] + gaps[0] + Join(entries[1..], gaps[1..])
  }

  /** No comma, semicolon, space, tab, carriage return or line feed, and no other white space at an end. */
  ghost predicate Entry(e: seq<byte>) {
    Solid(e) && NulFree(e) && forall i | 0 <= i < |e| :: e[i] !in {44, 59, 32, 9, 13, 10}
  }

  /** Those six only. */
  ghost predicate Separators(g: seq<byte>) {
    forall i | 0 <= i < |g| :: g[i] in {44, 59, 32, 9, 13, 10}
  }

  /** Any entries, kept apart by one separator or more; there may be none behind the last. */
  ghost predicate KeptApart(entries: seq<seq<byte>>, gaps: seq<seq<byte>>) {
    && |entries| == |gaps|
    && (forall i | 0 <= i < |entries| :: Entry(entries[i]) && Separators(gaps[i]))
    && (forall i | 0 <= i < |entries| - 1 :: gaps[i] != [])
  }

  /** Joining then matching, whatever delimiters are used and however many, in front and behind too: exactly
      the entries, each followed by any multiple of 256 NULs, are matched. */
  lemma JoinThenMatch(ip: seq<byte>, lead: seq<byte>, entries: seq<seq<byte>>, gaps: seq<seq<byte>>)
    requires KeptApart(entries, gaps) && Separators(lead)
    ensures Listed(ip, Segments(lead + Join(entries, gaps))) <==> exists e :: e in entries && Padded(ip, e)
  {
    hide Join, Pending, Hit, Listed, SegmentsFrom, Entry, Separators, Padded, KeptApart;
    AllEntries(entries, gaps);
    PendingIsListed(ip, lead + Join(entries, gaps), 0);
    LeadSkipped(ip, lead, Join(entries, gaps));
    JoinedPending(ip, entries, gaps);
    EntriesListed(ip, entries);
  }

  lemma AllEntries(entries: seq<seq<byte>>, gaps: seq<seq<byte>>)
    requires KeptApart(entries, gaps)
    ensures |entries| == |gaps| && forall i | 0 <= i < |entries| :: Entry(entries[i])
  {
    hide Entry;
  }

  lemma LeadSkipped(ip: seq<byte>, lead: seq<byte>, rest: seq<byte>)
    requires Separators(lead)
    ensures Pending(ip, lead + rest, 0) <==> Pending(ip, rest, 0)
  {
    hide Hit, Pending;
    SkipGap(ip, lead + rest, 0, |lead|);
    Shift(ip, lead, rest, 0);
  }

  lemma EntriesListed(ip: seq<byte>, entries: seq<seq<byte>>)
    requires forall i | 0 <= i < |entries| :: Entry(entries[i])
    ensures Listed(ip, entries) <==> exists e :: e in entries && Padded(ip, e)
  {
    hide Hit, Entry, Padded;
    forall i | 0 <= i < |entries| ensures Hit(ip, entries[i]) <==> Padded(ip, entries[i]) {
      EntryHit(ip, entries[i]);
    }
  }

  /** For NUL-free addresses that is membership. */
  lemma JoinThenMatchIsMembership(ip: seq<byte>, lead: seq<byte>, entries: seq<seq<byte>>, gaps: seq<seq<byte>>)
    requires KeptApart(entries, gaps) && Separators(lead) && NulFree(ip)
    ensures Listed(ip, Segments(lead + Join(entries, gaps))) <==> ip in entries
  {
    hide Join, Listed, SegmentsFrom, KeptApart, Separators, Padded;
    JoinThenMatch(ip, lead, entries, gaps);
    forall e ensures Padded(ip, e) <==> ip == e {
      PaddedToNulFree(ip, e);
    }
  }

  lemma NoHit(ip: seq<byte>)
    ensures !Hit(ip, [])
  {
  }

  lemma EntryHit(ip: seq<byte>, e: seq<byte>)
    requires Entry(e)
    ensures Hit(ip, e) <==> Padded(ip, e)
  {
    hide Alike, Trim, Padded;
    assert [] + e + [] == e;
    TrimMeaning([], e, []);
    AlikeToNulFree(ip, e);
  }

  lemma {:induction false} JoinedPending(ip: seq<byte>, entries: seq<seq<byte>>, gaps: seq<seq<byte>>)
    requires KeptApart(entries, gaps)
    ensures Pending(ip, Join(entries, gaps), 0) <==> Listed(ip, entries)
  {
    hide Hit, Entry, Separators, Listed;
    NoHit(ip);
    NoneListed(ip);
    if entries != [] {
      JoinedPending(ip, entries[1..], gaps[1..]);
      EntryFirst(ip, entries[0], gaps[0], Join(entries[1..], gaps[1..]));
      ListedMore(ip, entries[0], entries[1..]);
      assert [entries[0]] + entries[1..] == entries;
    } else {
      var none: seq<byte> := [];
      assert none[0..FindSeparator(none, 0)] == [];
    }
  }

  lemma EntryFirst(ip: seq<byte>, e: seq<byte>, g: seq<byte>, rest: seq<byte>)
    requires Entry(e) && Separators(g) && (g == [] ==> rest == [])
    ensures Pending(ip, e + g + rest, 0) <==> Hit(ip, e) || Pending(ip, rest, 0)
  {
    hide Hit;
    NoHit(ip);
    var s := e + g + rest;
    if g == [] {
      assert s == e && e[0..|e|] == e && FindSeparator(e, 0) == |e|;
      assert rest[0..FindSeparator(rest, 0)] == [];
    } else {
      FindAfter(s, 0, |e|);
      assert s[0..|e|] == e;
      SkipGap(ip, s, |e| + 1, |e| + |g|);
      Shift(ip, e + g, rest, 0);
    }
  }

  lemma FindAfter(s: seq<byte>, start: nat, k: nat)
    requires start <= k < |s| && IsSeparator(s[k])
    requires forall i | start <= i < k :: !IsSeparator(s[i])
    ensures FindSeparator(s, start) == k
  {
  }

  lemma {:induction false} SkipGap(ip: seq<byte>, s: seq<byte>, start: nat, end: nat)
    requires start <= end <= |s|
    requires forall i | start <= i < end :: IsSeparator(s[i])
    ensures Pending(ip, s, start) <==> Pending(ip, s, end)
    decreases end - start
  {
    hide Hit;
    NoHit(ip);
    if start < end {
      SkipGap(ip, s, start + 1, end);
      assert s[start..start] == [];
    }
  }

  lemma {:induction false} Shift(ip: seq<byte>, a: seq<byte>, b: seq<byte>, start: nat)
    requires start <= |b|
    ensures Pending(ip, a + b, |a| + start) <==> Pending(ip, b, start)
    decreases |b| - start
  {
    hide Hit, FindSeparator;
    ShiftFind(a, b, start);
    var k := FindSeparator(b, start);
    assert (a + b)[|a| + start..|a| + k] == b[start..k];
    if k < |b| {
      Shift(ip, a, b, k + 1);
    }
  }

  lemma {:induction false} ShiftFind(a: seq<byte>, b: seq<byte>, start: nat)
    requires start <= |b|
    ensures FindSeparator(a + b, |a| + start) == |a| + FindSeparator(b, start)
    decreases |b| - start
  {
    if start < |b| && !IsSeparator(b[start]) {
      ShiftFind(a, b, start + 1);
    }
  }
}
