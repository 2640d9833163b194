/** Types shared by the whole model. */
module Common {
  datatype Option<+T> = None | Some(value: T)

  /** What a step does to one optional value. */
  datatype Change<T> = Keep | Remove | Put(value: T)

  function Applied<T>(before: Option<T>, c: Change<T>): Option<T> {
    match c
    case Keep => before
    case Remove => None
    case Put(v) => Some(v)
  }

  type byte = x: int | 0 <= x < 0x100

  /** The elements of a set, each once, in some order: what a directory listing or a query yields. */
  method Enumerate<T(==)>(s: set<T>) returns (items: seq<T>)
    ensures |items| == |s| && forall x :: x in s <==> x in items
    ensures forall i, j :: 0 <= i < j < |items| ==> items[i] != items[j]
  {
    var left := s;
    items := [];
    while left != {}
      invariant left <= s && |items| + |left| == |s|
      invariant forall x :: x in s <==> x in left || x in items
      invariant forall x :: x in items ==> x !in left
      invariant forall i, j :: 0 <= i < j < |items| ==> items[i] != items[j]
      decreases left
    {
      var x :| x in left;
      items, left := items + [x], left - {x};
    }
  }

  // ---- Sums over finitely many threads ----

  /** The sum of the weights below `n`. */
  function Total(w: map<nat, nat>, n: nat): nat {
    if n == 0 then 0 else Total(w, n - 1) + if n - 1 in w then w[n - 1] else 0
  }

  lemma {:induction false} TotalDrops(w: map<nat, nat>, w': map<nat, nat>, n: nat, t: nat)
    requires t < n && t in w && t in w' && w'[t] < w[t]
    requires forall u :: u != t ==> (u in w <==> u in w') && (u in w ==> w'[u] == w[u])
    ensures Total(w', n) < Total(w, n)
  {
    if t == n - 1 {
      TotalSame(w, w', n - 1);
    } else {
      TotalDrops(w, w', n - 1, t);
    }
  }

  lemma {:induction false} TotalSame(w: map<nat, nat>, w': map<nat, nat>, n: nat)
    requires forall u :: u < n ==> (u in w <==> u in w') && (u in w ==> w'[u] == w[u])
    ensures Total(w', n) == Total(w, n)
  {
    if n > 0 {
      TotalSame(w, w', n - 1);
    }
  }

  /** Finitely many numbers have a bound. */
  lemma {:induction false} Bounded(s: set<nat>) returns (n: nat)
    ensures forall x :: x in s ==> x < n
    decreases |s|
  {
    if s == {} {
      n := 0;
    } else {
      var x :| x in s;
      var m := Bounded(s - {x});
      n := if x < m then m else x + 1;
      forall y | y in s ensures y < n {
        assert y == x || y in s - {x};
      }
    }
  }

  function Min(a: int, b: int): int {
    if a < b then a else b
  }
}

/** Trimming, for ASCII. */
module Text {
  predicate IsSpace(c: char) {
    c == ' ' || '\t' <= c <= '\r'
  }

  lemma SpacesAre(c: char)
    ensures IsSpace(c) <==> c == ' ' || c == '\t' || c == '\n' || c == '\U{0B}' || c == '\U{0C}' || c == '\r'
  {
    assert IsSpace(c) <==> c as int == 32 || 9 <= c as int <= 13;
  }

  /** TrimSpace, for ASCII. */
  function TrimLeft(s: string): (r: string)
    ensures |r| <= |s| && (r != [] ==> !IsSpace(r[0]))
  {
    if s != [] && IsSpace(s[0]) then TrimLeft(s[1..]) else s
  }

  function TrimRight(s: string): (r: string)
    ensures |r| <= |s| && (r != [] ==> !IsSpace(r[|r| - 1])) && r <= s
  {
    if s != [] && IsSpace(s[|s| - 1]) then TrimRight(s[..|s| - 1]) else s
  }

  function Trim(s: string): string {
    TrimRight(TrimLeft(s))
  }

  /** A trimmed text does not begin or end with a space. */
  lemma TrimIsTrimmed(s: string)
    ensures Trim(s) != "" ==> !IsSpace(Trim(s)[0]) && !IsSpace(Trim(s)[|Trim(s)| - 1])
  {
  }

  /** Trimming never takes a character that is not a space. */
  lemma {:induction false} TrimKeeps(s: string, i: nat)
    requires i < |s| && !IsSpace(s[i])
    ensures Trim(s) != ""
    decreases |s|
  {
    if IsSpace(s[0]) {
      TrimKeeps(s[1..], i - 1);
    } else {
      TrimRightKeeps(s);
    }
  }

  lemma {:induction false} TrimRightKeeps(s: string)
    requires s != "" && !IsSpace(s[0])
    ensures TrimRight(s) != ""
    decreases |s|
  {
    if |s| > 1 {
      TrimRightKeeps(s[..|s| - 1]);
    }
  }

  /** Spaces around a text do not count. */
  lemma TrimIgnoresSpace(left: string, s: string, right: string)
    requires forall i :: 0 <= i < |left| ==> IsSpace(left[i])
    requires forall i :: 0 <= i < |right| ==> IsSpace(right[i])
    requires s == "" || (!IsSpace(s[0]) && !IsSpace(s[|s| - 1]))
    ensures Trim(left + s + right) == s
  {
    if s == "" {
      assert left + s + right == left + right;
      SpaceOnLeft(left + right, "");
      assert left + right + "" == left + right;
    } else {
      assert left + s + right == left + (s + right);
      SpaceOnLeft(left, s + right);
      SpaceOnRight(s, right);
    }
  }

  lemma {:induction false} SpaceOnLeft(left: string, s: string)
    requires (forall i :: 0 <= i < |left| ==> IsSpace(left[i])) && (s == "" || !IsSpace(s[0]))
    ensures TrimLeft(left + s) == s
  {
    if left == "" {
      assert left + s == s;
    } else {
      assert (left + s)[1..] == left[1..] + s;
      SpaceOnLeft(left[1..], s);
    }
  }

  lemma {:induction false} SpaceOnRight(s: string, right: string)
    requires (forall i :: 0 <= i < |right| ==> IsSpace(right[i])) && (s == "" || !IsSpace(s[|s| - 1]))
    ensures TrimRight(s + right) == s
    decreases |right|
  {
    if right == "" {
      assert s + right == s;
    } else {
      var all := s + right;
      assert all[..|all| - 1] == s + right[..|right| - 1];
      SpaceOnRight(s, right[..|right| - 1]);
    }
  }
}

/** The metadata record of a paste and the checks every store operation makes on it. */
module Pastes {
  import opened Common

  /** `expiresAt == None` is Go's zero time. Times are nanoseconds. */
  datatype Metadata = Metadata(
    id: string,
    filename: string,
    title: string,   // the label
    passwordHash: string,
    manageTokenHash: string,
    deleteTokenHash: string,
    createdAt: int,
    expiresAt: Option<int>,
    dataPolicy: string,
    size: nat,
    contentType: string)

  /** A password or token as the caller presents it; hashing is left to the caller of the model. */
  datatype Secret = Secret(blank: bool, hash: string)

  function LowerChar(c: char): char {
    if 'A' <= c <= 'Z' then c - 'A' + 'a' else c
  }

  function Lower(s: string): (r: string)
    ensures |r| == |s|
    ensures forall i :: 0 <= i < |s| ==> r[i] == LowerChar(s[i])
  {
    seq(|s|, i requires 0 <= i < |s| => LowerChar(s[i]))
  }

  /** A MySQL key as its column's case-insensitive collation compares it (ids are ASCII). */
  function KeyOf(id: string): string {
    Lower(id)
  }

  /** Two characters the comparison takes for one: a capital and its small letter. */
  predicate CaseVariants(a: char, b: char) {
    || ('A' <= a <= 'Z' && b as int == a as int + 32)
    || ('A' <= b <= 'Z' && a as int == b as int + 32)
  }

  /** Ids name one row exactly when they differ in the case of letters at most. */
  lemma SameKeyIff(a: string, b: string)
    ensures KeyOf(a) == KeyOf(b) <==>
      |a| == |b| && forall i :: 0 <= i < |a| ==> a[i] == b[i] || CaseVariants(a[i], b[i])
  {
    if |a| == |b| && forall i :: 0 <= i < |a| ==> a[i] == b[i] || CaseVariants(a[i], b[i]) {
      assert forall i :: 0 <= i < |a| ==> KeyOf(a)[i] == LowerChar(a[i]) && KeyOf(b)[i] == LowerChar(b[i]);
    }
    if KeyOf(a) == KeyOf(b) {
      assert |KeyOf(a)| == |KeyOf(b)|;
      forall i | 0 <= i < |a| ensures a[i] == b[i] || CaseVariants(a[i], b[i]) {
        assert LowerChar(a[i]) == KeyOf(a)[i] == KeyOf(b)[i] == LowerChar(b[i]);
      }
    }
  }

  /** A policy name means "once" or "permanent" whatever its case, and so is its own lower case. */
  lemma LowerIsSmall(s: string)
    ensures Lower(Lower(s)) == Lower(s)
    ensures forall c :: c in Lower(s) ==> !('A' <= c <= 'Z')
    ensures (forall i :: 0 <= i < |s| ==> !('A' <= s[i] <= 'Z')) ==> Lower(s) == s
  {
  }

  predicate IsOnce(meta: Metadata) {
    Lower(meta.dataPolicy) == "once"
  }

  predicate IsExpired(meta: Metadata, now: int) {
    Lower(meta.dataPolicy) != "permanent" && meta.expiresAt.Some? && now > meta.expiresAt.value
  }

  predicate PasswordOk(meta: Metadata, given: Secret) {
    meta.passwordHash == "" || (!given.blank && given.hash == meta.passwordHash)
  }

  predicate DeleteTokenOk(meta: Metadata, given: Secret) {
    meta.deleteTokenHash != "" && given.hash == meta.deleteTokenHash
  }

  predicate ManageTokenOk(meta: Metadata, given: Secret) {
    meta.manageTokenHash != "" && given.hash == meta.manageTokenHash
  }

  // ---- Times in MySQL columns: whole seconds, NULL for the zero time ----

  const SECOND := 1_000_000_000

  function NullUnix(t: Option<int>): Option<int> {
    if t.None? then None else Some(t.value / SECOND)
  }

  function UnixTime(v: Option<int>): Option<int> {
    if v.None? || v.value == 0 then None else Some(v.value * SECOND)
  }

  /** The record as it reads back from its row. */
  function ReadBack(m: Metadata): Metadata {
    m.(createdAt := m.createdAt / SECOND * SECOND, expiresAt := UnixTime(NullUnix(m.expiresAt)))
  }

  /** Storing a record changes nothing in it but the fractions of its two times; and an expiry in the
      first second of 1970, stored as zero, reads back as none. */
  lemma ReadBackKeeps(m: Metadata)
    ensures ReadBack(m).(createdAt := m.createdAt, expiresAt := m.expiresAt) == m
    ensures ReadBack(m).createdAt % 1_000_000_000 == 0 && 0 <= m.createdAt - ReadBack(m).createdAt < 1_000_000_000
    ensures ReadBack(m).expiresAt.None? <==> m.expiresAt.None? || 0 <= m.expiresAt.value < 1_000_000_000
    ensures ReadBack(m).expiresAt.Some? ==>
      && ReadBack(m).expiresAt.value % 1_000_000_000 == 0
      && 0 <= m.expiresAt.value - ReadBack(m).expiresAt.value < 1_000_000_000
  {
  }

  /** `stored` is what a row holds after it was given record `m`. */
  predicate IsStored(stored: Metadata, m: Metadata) {
    && stored.(createdAt := m.createdAt, expiresAt := m.expiresAt) == m
    && stored.createdAt % 1_000_000_000 == 0 && 0 <= m.createdAt - stored.createdAt < 1_000_000_000
    && IsStoredExpiry(stored.expiresAt, m.expiresAt)
  }

  predicate IsStoredExpiry(stored: Option<int>, given: Option<int>) {
    if given.None? || 0 <= given.value < 1_000_000_000 then stored.None?
    else stored.Some? && stored.value % 1_000_000_000 == 0 && 0 <= given.value - stored.value < 1_000_000_000
  }

  /** `expires_at_unix IS NOT NULL AND expires_at_unix < now`, the clean-up statement. */
  predicate SqlExpired(column: Option<int>, now: int) {
    column.Some? && column.value < now / SECOND
  }

  predicate ValidIDChar(c: char) {
    'a' <= c <= 'z' || 'A' <= c <= 'Z' || '0' <= c <= '9' || c == '_' || c == '-'
  }

  predicate ValidID(id: string) {
    1 <= |id| <= 10 && forall i :: 0 <= i < |id| ==> ValidIDChar(id[i])
  }

  const SMALL := "abcdefghijklmnopqrstuvwxyz"
  const CAPITAL := "ABCDEFGHIJKLMNOPQRSTUVWXYZ"
  const OTHER := "0123456789_-"

  lemma SmallIs(c: char)
    ensures c in SMALL <==> 'a' <= c <= 'z'
  {
    if 'a' <= c <= 'z' {
      assert SMALL[c as int - 'a' as int] == c;
    }
  }

  lemma CapitalIs(c: char)
    ensures c in CAPITAL <==> 'A' <= c <= 'Z'
  {
    if 'A' <= c <= 'Z' {
      assert CAPITAL[c as int - 'A' as int] == c;
    }
  }

  lemma OtherIs(c: char)
    ensures c in OTHER <==> '0' <= c <= '9' || c == '_' || c == '-'
  {
    if '0' <= c <= '9' {
      assert OTHER[c as int - '0' as int] == c;
    } else if c == '_' || c == '-' {
      assert OTHER[if c == '_' then 10 else 11] == c;
    }
  }

  lemma ValidIDIff(id: string)
    ensures ValidID(id) <==> 0 < |id| <= 10 && forall i :: 0 <= i < |id| ==> id[i] in SMALL + CAPITAL + OTHER
  {
    forall i | 0 <= i < |id| ensures id[i] in SMALL + CAPITAL + OTHER <==> ValidIDChar(id[i]) {
      SmallIs(id[i]);
      CapitalIs(id[i]);
      OtherIs(id[i]);
    }
  }
}
