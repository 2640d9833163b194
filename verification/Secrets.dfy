/** Random choices for ids, tokens and passwords. Randomness is a stream of bytes given to the
    object; nothing is assumed about it except, where noted, that it is long enough. */
module Secrets {
  import opened Common
  import P = Pastes

  /** Rejection sampling: bytes from `Limit(max)` on are thrown away. */
  function Limit(max: int): int
    requires max > 0
  {
    256 - 256 % max
  }

  function BytesFor(max: int, index: int, limit: nat): set<int>
    requires max > 0
  {
    set b: int | 0 <= b < limit && b % max == index
  }

  lemma AcceptedBytes(max: int, index: int)
    requires 1 <= max <= 256 && 0 <= index < max
    ensures |BytesFor(max, index, Limit(max))| == 256 / max >= 1
  {
    var rounds := 256 / max;
    assert 256 == max * rounds + 256 % max;
    assert Limit(max) == max * rounds;
    CountRounds(max, index, rounds);
  }

  /** A full round of `max` bytes from a multiple of `max` on hits each index once. */
  lemma OneRound(max: int, index: int, q: nat, b: int)
    requires 0 <= index < max && max * q <= b < max * q + max
    ensures b % max == index <==> b == max * q + index
  {
    RemainderOfRound(max, q, b - max * q);
  }

  lemma {:induction false} CountRounds(max: int, index: int, rounds: nat)
    requires max > 0 && 0 <= index < max
    ensures max * rounds >= 0 && |BytesFor(max, index, max * rounds)| == rounds
  {
    if rounds == 0 {
      assert BytesFor(max, index, 0) == {};
    } else {
      var q := rounds - 1;
      CountRounds(max, index, q);
      var base := max * q;
      assert max * rounds == base + max;
      AddRound(max, index, q, base);
    }
  }

  lemma AddRound(max: int, index: int, q: nat, base: nat)
    requires 0 <= index < max && base == max * q
    ensures |BytesFor(max, index, base + max)| == |BytesFor(max, index, base)| + 1
  {
    forall b: int | base <= b < base + max ensures b % max == index <==> b == base + index {
      OneRound(max, index, q, b);
    }
    assert BytesFor(max, index, base + max) == BytesFor(max, index, base) + {base + index};
  }

  lemma RemainderOfRound(max: int, q: int, r: int)
    requires 0 <= r < max
    ensures (max * q + r) % max == r && (max * q + r) / max == q
  {
    var x := max * q + r;
    var d := q - x / max;
    assert max * d == max * q - max * (x / max);
    MultipleIsFar(max, d);
  }

  lemma MultipleIsFar(max: int, d: int)
    requires max > 0
    ensures d >= 1 ==> max * d >= max
    ensures d <= -1 ==> max * d <= -max
  {
    if d >= 1 {
      assert max * (d - 1) >= 0;
    } else if d <= -1 {
      assert max * (-d - 1) >= 0;
    }
  }

  // ---- Drawing ----

  /** The first byte that is accepted, and what follows it. */
  function FirstAccepted(stream: seq<byte>, limit: int): Option<(byte, seq<byte>)> {
    if stream == [] then None
    else if stream[0] as int < limit then Some((stream[0], stream[1..]))
    else FirstAccepted(stream[1..], limit)
  }

  /** Byte `k` is the first below `limit`; or there is none and `k` is the end. */
  predicate FirstBelow(stream: seq<byte>, limit: int, k: nat) {
    && k <= |stream| && (forall i :: 0 <= i < k ==> stream[i] as int >= limit)
    && (k < |stream| ==> stream[k] as int < limit)
  }

  lemma {:induction false} FirstAcceptedIsFirst(stream: seq<byte>, limit: int) returns (k: nat)
    ensures FirstBelow(stream, limit, k)
    ensures FirstAccepted(stream, limit) == if k == |stream| then None else Some((stream[k], stream[k + 1..]))
  {
    if stream == [] || stream[0] as int < limit {
      k := 0;
    } else {
      var j := FirstAcceptedIsFirst(stream[1..], limit);
      k := j + 1;
      assert k < |stream| ==> stream[1..][j + 1..] == stream[k + 1..];
    }
  }

  predicate AllPositive(maxes: seq<int>) {
    forall i :: 0 <= i < |maxes| ==> maxes[i] > 0
  }

  /** One index below each of `maxes`, drawn in order, and what is left of the stream. */
  function Draws(stream: seq<byte>, maxes: seq<int>): (r: Option<(seq<int>, seq<byte>)>)
    requires AllPositive(maxes)
    ensures r.Some? ==> |r.value.0| == |maxes| && forall i :: 0 <= i < |maxes| ==> 0 <= r.value.0[i] < maxes[i]
    decreases |maxes|
  {
    if maxes == [] then Some(([], stream))
    else
      match FirstAccepted(stream, Limit(maxes[0]))
      case None => None
      case Some((b, rest)) =>
        match Draws(rest, maxes[1..])
        case None => None
        case Some((indices, left)) => Some(([b as int % maxes[0]] + indices, left))
  }

  lemma {:induction false} DrawsAppend(stream: seq<byte>, first: seq<int>, second: seq<int>)
    requires AllPositive(first) && AllPositive(second)
    ensures AllPositive(first + second)
    ensures Draws(stream, first + second) ==
      match Draws(stream, first)
      case None => None
      case Some((a, rest)) =>
        match Draws(rest, second)
        case None => None
        case Some((b, left)) => Some((a + b, left))
    decreases |first|
  {
    if first == [] {
      assert first + second == second;
      if Draws(stream, second).Some? { assert [] + Draws(stream, second).value.0 == Draws(stream, second).value.0; }
    } else {
      var all := first + second;
      assert all[0] == first[0] && all[1..] == first[1..] + second;
      var x := FirstAccepted(stream, Limit(first[0]));
      if x.Some? {
        DrawsAppend(x.value.1, first[1..], second);
        var i := x.value.0 as int % first[0];
        if Draws(x.value.1, all[1..]).Some? {
          var a := Draws(x.value.1, first[1..]).value;
          var b := Draws(a.1, second).value;
          assert [i] + (a.0 + b.0) == [i] + a.0 + b.0;
        }
      }
    }
  }

  lemma DrawsOne(stream: seq<byte>, max: int)
    requires max > 0
    ensures Draws(stream, [max]) ==
      match FirstAccepted(stream, Limit(max))
      case None => None
      case Some((b, rest)) => Some(([b as int % max], rest))
  {
    assert [max][1..] == [];
    if FirstAccepted(stream, Limit(max)).Some? {
      var (b, rest) := FirstAccepted(stream, Limit(max)).value;
      assert Draws(rest, [max][1..]) == Some(([], rest));
      assert [b as int % max] + [] == [b as int % max];
    }
  }

  /** The byte makes `index` the index drawn. */
  predicate Gives(b: byte, max: int, index: int)
    requires max > 0
  {
    Draws([b], [max]) == Some(([index], []))
  }

  lemma GivesIff(b: byte, max: int, index: int)
    requires max > 0
    ensures Gives(b, max, index) <==> b as int < Limit(max) && b as int % max == index
  {
    DrawsOne([b], max);
    if b as int < Limit(max) {
      assert [b][1..] == [];
      assert [b as int % max][0] == b as int % max;
    } else {
      assert FirstAccepted([b], Limit(max)) == FirstAccepted([], Limit(max));
    }
  }

  function BytesGiving(max: int, index: int): set<byte>
    requires max > 0
  {
    set b: byte | Gives(b, max, index)
  }

  /** Every index is drawn by the same number of bytes. */
  lemma RandomIndexIsFair(max: int, index: int)
    requires 1 <= max <= 256 && 0 <= index < max
    ensures |BytesGiving(max, index)| == 256 / max >= 1
  {
    forall b: byte ensures b in BytesGiving(max, index) <==> b in BytesFor(max, index, Limit(max)) {
      GivesIff(b, max, index);
    }
    assert BytesGiving(max, index) == BytesFor(max, index, Limit(max));
    AcceptedBytes(max, index);
  }

  /** One more draw. */
  lemma DrawsNext(stream: seq<byte>, maxes: seq<int>, i: nat)
    requires AllPositive(maxes) && i < |maxes| && Draws(stream, maxes[..i]).Some?
    ensures AllPositive(maxes[..i + 1])
    ensures var done := Draws(stream, maxes[..i]).value;
      match FirstAccepted(done.1, Limit(maxes[i]))
      case None => Draws(stream, maxes[..i + 1]).None? && Draws(stream, maxes).None?
      case Some((b, rest)) => Draws(stream, maxes[..i + 1]) == Some((done.0 + [b as int % maxes[i]], rest))
  {
    var rest := Draws(stream, maxes[..i]).value.1;
    assert maxes[..i + 1] == maxes[..i] + [maxes[i]];
    DrawsAppend(stream, maxes[..i], [maxes[i]]);
    DrawsOne(rest, maxes[i]);
    if FirstAccepted(rest, Limit(maxes[i])).None? {
      assert maxes == maxes[..i + 1] + maxes[i + 1..];
      DrawsAppend(stream, maxes[..i + 1], maxes[i + 1..]);
    }
  }

  // ---- When there are enough bytes ----

  /** Bytes that every alphabet of at most 256 characters accepts. */
  function Small(stream: seq<byte>): nat {
    if stream == [] then 0 else (if stream[0] < 129 then 1 else 0) + Small(stream[1..])
  }

  lemma LimitIsLarge(max: int)
    requires 1 <= max <= 256
    ensures Limit(max) >= 129
  {
    if max > 128 && max < 256 {
      RemainderOfRound(max, 1, 256 - max);
    }
  }

  lemma {:induction false} FirstAcceptedKeeps(stream: seq<byte>, limit: int)
    requires limit >= 129 && Small(stream) > 0
    ensures FirstAccepted(stream, limit).Some? && Small(FirstAccepted(stream, limit).value.1) + 1 >= Small(stream)
  {
    if stream[0] as int >= limit {
      FirstAcceptedKeeps(stream[1..], limit);
    }
  }

  /** As many small bytes as draws are enough, whatever other bytes come between. */
  lemma {:induction false} EnoughBytes(stream: seq<byte>, maxes: seq<int>)
    requires (forall i :: 0 <= i < |maxes| ==> 1 <= maxes[i] <= 256) && Small(stream) >= |maxes|
    ensures Draws(stream, maxes).Some?
    decreases |maxes|
  {
    if maxes != [] {
      LimitIsLarge(maxes[0]);
      FirstAcceptedKeeps(stream, Limit(maxes[0]));
      EnoughBytes(FirstAccepted(stream, Limit(maxes[0])).value.1, maxes[1..]);
    }
  }

  /** And above 256 no byte is ever accepted. */
  lemma {:induction false} NothingAccepted(stream: seq<byte>, max: int)
    requires max > 256
    ensures FirstAccepted(stream, Limit(max)) == None
  {
    if stream != [] {
      NothingAccepted(stream[1..], max);
    }
  }

  // ---- Passwords ----

  const UPPER := P.CAPITAL
  const LOWER := P.SMALL
  const DIGITS := "0123456789"
  const SPECIAL := "!@#$%^&*_-+?{}[]"

  const ALL := UPPER + LOWER + DIGITS + SPECIAL

  /** Which characters the m-th draw chooses from. */
  function AlphabetAt(m: nat): string {
    if m == 0 then UPPER else if m == 1 then LOWER else if m == 2 then DIGITS else if m == 3 then SPECIAL else ALL
  }

  function Alphabets(length: nat): seq<int> {
    seq(length, m requires 0 <= m < length => |AlphabetAt(m)|)
  }

  /** The bounds of the choices of a shuffle, in the order they are drawn. */
  function ShuffleBounds(n: nat): (r: seq<int>)
    ensures AllPositive(r) && |r| == if n == 0 then 0 else n - 1
  {
    seq(if n == 0 then 0 else n - 1, m requires 0 <= m < (if n == 0 then 0 else n - 1) => n - m)
  }

  lemma AlphabetsArePositive(length: nat)
    ensures AllPositive(Alphabets(length))
    ensures forall m :: 0 <= m < length ==> Alphabets(length)[m] <= 78
  {
    assert |ALL| == 78;
  }

  predicate InAlphabets(indices: seq<int>) {
    forall m :: 0 <= m < |indices| ==> 0 <= indices[m] < |AlphabetAt(m)|
  }

  function Characters(indices: seq<int>): string
    requires InAlphabets(indices)
  {
    seq(|indices|, m requires 0 <= m < |indices| => AlphabetAt(m)[indices[m]])
  }

  function Length(asked: int): nat {
    if asked < 4 then 8 else asked
  }

  function CharacterDraws(stream: seq<byte>, length: nat): (r: Option<(seq<int>, seq<byte>)>)
    ensures r.Some? ==> |r.value.0| == length && InAlphabets(r.value.0)
  {
    AlphabetsArePositive(length);
    var r := Draws(stream, Alphabets(length));
    assert forall m :: 0 <= m < length ==> Alphabets(length)[m] == |AlphabetAt(m)|;
    r
  }

  /** Some characters of a password have been drawn. */
  ghost predicate Drawing(start: seq<byte>, length: nat, indices: seq<int>, stream: seq<byte>) {
    && AllPositive(Alphabets(length)) && |indices| <= length && InAlphabets(indices)
    && Draws(start, Alphabets(length)[..|indices|]) == Some((indices, stream))
  }

  lemma DrawingNext(start: seq<byte>, length: nat, indices: seq<int>, stream: seq<byte>)
    requires Drawing(start, length, indices, stream) && |indices| < length
    ensures |AlphabetAt(|indices|)| > 0
    ensures var max := |AlphabetAt(|indices|)|;
      match FirstAccepted(stream, Limit(max))
      case None => CharacterDraws(start, length) == None
      case Some((b, rest)) => Drawing(start, length, indices + [b as int % max], rest)
  {
    AlphabetsArePositive(length);
    assert Alphabets(length)[|indices|] == |AlphabetAt(|indices|)|;
    DrawsNext(start, Alphabets(length), |indices|);
  }

  lemma CharactersNext(indices: seq<int>, index: int)
    requires InAlphabets(indices) && 0 <= index < |AlphabetAt(|indices|)|
    ensures InAlphabets(indices + [index])
    ensures Characters(indices + [index]) == Characters(indices) + [AlphabetAt(|indices|)[index]]
  {
  }

  /** The password a stream of random bytes gives, if it is long enough. */
  function PasswordOf(stream: seq<byte>, length: nat): Option<string> {
    match CharacterDraws(stream, length)
    case None => None
    case Some((indices, rest)) =>
      match Draws(rest, ShuffleBounds(length))
      case None => None
      case Some((choices, _)) => Some(Shuffled(Characters(indices), choices))
  }

  /** A password of at most 256 characters comes out of every stream with twice as many small bytes. */
  lemma PasswordIfEnough(stream: seq<byte>, length: nat)
    requires length <= 256 && Small(stream) >= 2 * length
    ensures PasswordOf(stream, length).Some?
  {
    AlphabetsArePositive(length);
    var bounds := ShuffleBounds(length);
    assert forall i :: 0 <= i < |bounds| ==> 1 <= bounds[i] <= 256;
    EnoughBytes(stream, Alphabets(length) + bounds);
    DrawsAppend(stream, Alphabets(length), bounds);
  }

  /** A longer one out of none: its shuffle asks for an index no byte can give. */
  lemma NoLongPassword(stream: seq<byte>, length: nat)
    requires length > 256
    ensures PasswordOf(stream, length) == None
  {
    AlphabetsArePositive(length);
    if Draws(stream, Alphabets(length)).Some? {
      NothingAccepted(Draws(stream, Alphabets(length)).value.1, length);
    }
  }

  predicate HasAllClasses(s: string) {
    && (exists c :: c in s && c in UPPER)
    && (exists c :: c in s && c in LOWER)
    && (exists c :: c in s && c in DIGITS)
    && (exists c :: c in s && c in SPECIAL)
  }

  lemma CharactersAreMixed(indices: seq<int>)
    requires InAlphabets(indices) && |indices| >= 4
    ensures HasAllClasses(Characters(indices)) && forall c :: c in Characters(indices) ==> c in ALL
  {
    var s := Characters(indices);
    assert s[0] in UPPER && s[1] in LOWER && s[2] in DIGITS && s[3] in SPECIAL;
    forall c | c in s ensures c in ALL {
      var m :| 0 <= m < |s| && s[m] == c;
      AlphabetsAreInAll(m, c);
    }
  }

  lemma AlphabetsAreInAll(m: nat, c: char)
    requires c in AlphabetAt(m)
    ensures c in ALL
  {
  }

  lemma SameClasses(a: string, b: string)
    requires HasAllClasses(a) && forall c :: c in a <==> c in b
    ensures HasAllClasses(b)
  {
  }

  lemma SameCharacters(a: string, b: string)
    requires multiset(a) == multiset(b)
    ensures |a| == |b| && forall c :: c in a <==> c in b
  {
    assert |multiset(a)| == |a| && |multiset(b)| == |b|;
    assert forall c :: c in a <==> c in multiset(a);
    assert forall c :: c in b <==> c in multiset(b);
  }

  // ---- The shuffle as a function of its choices ----

  function Swap<T>(s: seq<T>, i: nat, j: nat): seq<T>
    requires i < |s| && j < |s|
  {
    s[i := s[j]][j := s[i]]
  }

  /** Swap position `i` with the first choice, `i - 1` with the second, and so on. */
  function Swaps<T>(s: seq<T>, i: int, js: seq<int>): (r: seq<T>)
    requires i < |s| && |js| <= i + 1 && forall m :: 0 <= m < |js| ==> 0 <= js[m] <= i - m
    ensures |r| == |s|
    decreases |js|
  {
    if js == [] then s else Swaps(Swap(s, i, js[0]), i - 1, js[1..])
  }

  /** A full sequence of choices: j_i in [0, i] for i from n - 1 down to 1. */
  predicate Choices(js: seq<int>, n: nat) {
    |js| == (if n == 0 then 0 else n - 1) && forall m :: 0 <= m < |js| ==> 0 <= js[m] <= n - 1 - m
  }

  function Shuffled<T>(s: seq<T>, js: seq<int>): seq<T>
    requires Choices(js, |s|)
  {
    Swaps(s, |s| - 1, js)
  }

  /** Some swaps of a shuffle have been chosen. */
  ghost predicate Shuffling(start: seq<byte>, n: nat, js: seq<int>, stream: seq<byte>) {
    && |js| <= |ShuffleBounds(n)| && Draws(start, ShuffleBounds(n)[..|js|]) == Some((js, stream))
    && forall m :: 0 <= m < |js| ==> 0 <= js[m] <= n - 1 - m
  }

  lemma ShufflingNext(start: seq<byte>, n: nat, js: seq<int>, stream: seq<byte>)
    requires Shuffling(start, n, js, stream) && |js| < n - 1
    ensures var max := n - |js|;
      match FirstAccepted(stream, Limit(max))
      case None => Draws(start, ShuffleBounds(n)) == None
      case Some((b, rest)) => Shuffling(start, n, js + [b as int % max], rest)
  {
    assert ShuffleBounds(n)[|js|] == n - |js|;
    DrawsNext(start, ShuffleBounds(n), |js|);
  }

  lemma SwapIsPermutation<T>(s: seq<T>, i: nat, j: nat)
    requires i < |s| && j < |s|
    ensures multiset(Swap(s, i, j)) == multiset(s)
  {
  }

  lemma {:induction false} SwapsPermute<T>(s: seq<T>, i: int, js: seq<int>)
    requires i < |s| && |js| <= i + 1 && forall m :: 0 <= m < |js| ==> 0 <= js[m] <= i - m
    ensures multiset(Swaps(s, i, js)) == multiset(s)
    decreases |js|
  {
    if js != [] {
      SwapIsPermutation(s, i, js[0]);
      SwapsPermute(Swap(s, i, js[0]), i - 1, js[1..]);
    }
  }

  lemma {:induction false} SwapsAppend<T>(s: seq<T>, i: int, js: seq<int>, j: nat)
    requires i < |s| && |js| <= i && j <= i - |js| && forall m :: 0 <= m < |js| ==> 0 <= js[m] <= i - m
    ensures forall m :: 0 <= m < |js + [j]| ==> 0 <= (js + [j])[m] <= i - m
    ensures Swaps(s, i, js + [j]) == Swap(Swaps(s, i, js), i - |js|, j)
    decreases |js|
  {
    if js == [] {
      assert Swaps(Swap(s, i, j), i - 1, [j][1..]) == Swap(s, i, j);
    } else {
      assert (js + [j])[1..] == js[1..] + [j];
      SwapsAppend(Swap(s, i, js[0]), i - 1, js[1..], j);
    }
  }

  /** Later swaps do not touch what an earlier one has put in place. */
  lemma {:induction false} SwapsKeepTail<T>(s: seq<T>, i: int, js: seq<int>, p: nat)
    requires i < |s| && |js| <= i + 1 && (forall m :: 0 <= m < |js| ==> 0 <= js[m] <= i - m) && i < p < |s|
    ensures Swaps(s, i, js)[p] == s[p]
    decreases |js|
  {
    if js != [] {
      SwapsKeepTail(Swap(s, i, js[0]), i - 1, js[1..], p);
    }
  }

  /** The first choices, applied from the end, turn `was` into `now`. */
  ghost predicate Shuffles<T>(was: seq<T>, js: seq<int>, now: seq<T>) {
    && |js| <= |was| && (forall m :: 0 <= m < |js| ==> 0 <= js[m] <= |was| - 1 - m)
    && now == Swaps(was, |was| - 1, js)
  }

  lemma ShufflesPermute<T>(was: seq<T>, js: seq<int>, now: seq<T>)
    requires Shuffles(was, js, now)
    ensures |now| == |was| && multiset(now) == multiset(was)
  {
    SwapsPermute(was, |was| - 1, js);
  }

  lemma ShufflesNext<T>(was: seq<T>, js: seq<int>, now: seq<T>, i: nat, j: nat)
    requires Shuffles(was, js, now) && |js| < |was| && i == |was| - 1 - |js| && j <= i
    ensures |now| == |was| && Shuffles(was, js + [j], Swap(now, i, j))
  {
    SwapsAppend(was, |was| - 1, js, j);
  }

  predicate Distinct<T(==)>(s: seq<T>) {
    forall i, j :: 0 <= i < j < |s| ==> s[i] != s[j]
  }

  /** On distinct elements different choices give different results: the n! choice sequences reach
      n! orders, each once. */
  lemma {:induction false} SwapsInjective<T>(s: seq<T>, i: int, js: seq<int>, ks: seq<int>)
    requires Distinct(s) && i < |s| && |js| == |ks| <= i + 1
    requires (forall m :: 0 <= m < |js| ==> 0 <= js[m] <= i - m) && (forall m :: 0 <= m < |ks| ==> 0 <= ks[m] <= i - m)
    requires Swaps(s, i, js) == Swaps(s, i, ks)
    ensures js == ks
    decreases |js|
  {
    if js != [] {
      SwapsKeepTail(Swap(s, i, js[0]), i - 1, js[1..], i);
      SwapsKeepTail(Swap(s, i, ks[0]), i - 1, ks[1..], i);
      assert s[js[0]] == s[ks[0]];
      assert js[0] == ks[0];
      SwapDistinct(s, i, js[0]);
      SwapsInjective(Swap(s, i, js[0]), i - 1, js[1..], ks[1..]);
      assert js == [js[0]] + js[1..] && ks == [ks[0]] + ks[1..];
    }
  }

  lemma SwapDistinct<T>(s: seq<T>, i: nat, j: nat)
    requires i < |s| && j < |s| && Distinct(s)
    ensures Distinct(Swap(s, i, j))
  {
  }

  lemma ShuffleInjective<T>(s: seq<T>, js: seq<int>, ks: seq<int>)
    requires Distinct(s) && Choices(js, |s|) && Choices(ks, |s|) && Shuffled(s, js) == Shuffled(s, ks)
    ensures js == ks
  {
    SwapsInjective(s, |s| - 1, js, ks);
  }

  lemma SplitLast<T>(s: seq<T>, i: nat)
    requires i < |s|
    ensures multiset(s[..i]) == multiset(s[..i + 1]) - multiset{s[i]}
  {
    assert s[..i + 1] == s[..i] + [s[i]];
  }

  lemma SwapInPrefix<T>(s: seq<T>, i: nat, j: nat)
    requires i < |s| && j <= i
    ensures Swap(s, i, j)[..i + 1] == Swap(s[..i + 1], i, j) && Swap(s, i, j)[i..] == [s[j]] + s[i + 1..]
  {
  }

  /** Bringing the right element to position `i` leaves the same problem for the positions before. */
  lemma SwapSettles<T>(s: seq<T>, i: nat, r: seq<T>, j: nat)
    requires i < |s| == |r| && j <= i && s[j] == r[i]
    requires s[i + 1..] == r[i + 1..] && multiset(s[..i + 1]) == multiset(r[..i + 1])
    ensures Swap(s, i, j)[i..] == r[i..] && multiset(Swap(s, i, j)[..i]) == multiset(r[..i])
  {
    var s' := Swap(s, i, j);
    SwapInPrefix(s, i, j);
    assert multiset(s'[..i + 1]) == multiset(s[..i + 1]) by { SwapIsPermutation(s[..i + 1], i, j); }
    assert s'[i] == r[i];
    SplitLast(s', i);
    SplitLast(r, i);
    assert r[i..] == [r[i]] + r[i + 1..];
  }

  lemma FirstOfSame<T>(s: seq<T>, r: seq<T>)
    requires 0 < |s| == |r| && s[1..] == r[1..] && multiset(s[..1]) == multiset(r[..1])
    ensures s == r
  {
    assert s[..1] == [s[0]] && r[..1] == [r[0]];
    assert multiset{s[0]} == multiset{r[0]};
    assert s[0] in multiset{r[0]};
    assert s == [s[0]] + s[1..] && r == [r[0]] + r[1..];
  }

  lemma FindInPrefix<T>(s: seq<T>, i: nat, r: seq<T>) returns (j: nat)
    requires i < |s| == |r| && multiset(s[..i + 1]) == multiset(r[..i + 1])
    ensures j <= i && s[j] == r[i]
  {
    assert r[..i + 1][i] == r[i];
    assert r[i] in multiset(r[..i + 1]);
    assert r[i] in s[..i + 1];
    j :| 0 <= j < i + 1 && s[..i + 1][j] == r[i];
  }

  /** And every order is reached. */
  lemma {:induction false} SwapsReach<T>(s: seq<T>, i: nat, r: seq<T>) returns (js: seq<int>)
    requires i < |s| == |r| && s[i + 1..] == r[i + 1..] && multiset(s[..i + 1]) == multiset(r[..i + 1])
    ensures |js| == i && (forall m :: 0 <= m < |js| ==> 0 <= js[m] <= i - m) && Swaps(s, i, js) == r
    decreases i
  {
    if i == 0 {
      js := [];
      FirstOfSame(s, r);
    } else {
      var j := FindInPrefix(s, i, r);
      SwapSettles(s, i, r, j);
      var rest := SwapsReach(Swap(s, i, j), i - 1, r);
      js := [j] + rest;
      assert js[1..] == rest;
    }
  }

  lemma ShuffleReaches<T>(s: seq<T>, r: seq<T>) returns (js: seq<int>)
    requires multiset(s) == multiset(r) && |s| == |r|
    ensures Choices(js, |s|) && Shuffled(s, js) == r
  {
    if s == [] {
      js := [];
    } else {
      assert s[..|s| - 1 + 1] == s && r[..|r| - 1 + 1] == r;
      js := SwapsReach(s, |s| - 1, r);
    }
  }

  // ---- Every password can come out ----

  /** The class the m-th drawn character is to come from. */
  predicate InClass(c: char, m: nat) {
    c in AlphabetAt(m)
  }

  lemma ClassesAreDisjoint(c: char)
    requires c in ALL
    ensures c in UPPER ==> c !in LOWER && c !in DIGITS && c !in SPECIAL
    ensures c in LOWER ==> c !in DIGITS && c !in SPECIAL
    ensures c in DIGITS ==> c !in SPECIAL
  {
    P.CapitalIs(c);
    P.SmallIs(c);
  }

  /** Bring a character of the class to position `m`. */
  lemma Bring(s: string, m: nat) returns (r: string)
    requires m < 4 <= |s| && (exists c :: c in s && InClass(c, m)) && (forall c :: c in s ==> c in ALL)
    requires forall i :: 0 <= i < m ==> InClass(s[i], i)
    ensures |r| == |s| && multiset(r) == multiset(s)
    ensures forall i :: 0 <= i <= m ==> InClass(r[i], i)
  {
    var c :| c in s && InClass(c, m);
    var k :| 0 <= k < |s| && s[k] == c;
    ClassesAreDisjoint(c);
    r := Swap(s, m, k);
    SwapIsPermutation(s, m, k);
  }

  lemma SameMembers(a: string, b: string)
    requires multiset(a) == multiset(b)
    ensures forall c :: c in a <==> c in b
  {
    SameCharacters(a, b);
  }

  /** The characters of a password in an order in which they can be drawn. */
  lemma Arranged(p: string) returns (q: string)
    requires |p| >= 4 && HasAllClasses(p) && forall c :: c in p ==> c in ALL
    ensures |q| == |p| && multiset(q) == multiset(p) && forall m :: 0 <= m < |q| ==> InClass(q[m], m)
  {
    var a := Bring(p, 0);
    SameMembers(a, p);
    var b := Bring(a, 1);
    SameMembers(b, p);
    var c := Bring(b, 2);
    SameMembers(c, p);
    q := Bring(c, 3);
    SameMembers(q, p);
    assert forall m :: 4 <= m < |q| ==> q[m] in q;
  }

  lemma IndicesOf(q: string) returns (indices: seq<int>)
    requires forall m :: 0 <= m < |q| ==> InClass(q[m], m)
    ensures |indices| == |q| && InAlphabets(indices) && Characters(indices) == q
  {
    indices := [];
    while |indices| < |q|
      invariant |indices| <= |q| && InAlphabets(indices)
      invariant forall m :: 0 <= m < |indices| ==> AlphabetAt(m)[indices[m]] == q[m]
    {
      var m := |indices|;
      var i :| 0 <= i < |AlphabetAt(m)| && AlphabetAt(m)[i] == q[m];
      indices := indices + [i];
    }
  }

  /** A number below the bound, taken as a byte, draws itself. */
  lemma {:induction false} DrawsThemselves(indices: seq<int>, maxes: seq<int>, rest: seq<byte>)
    returns (stream: seq<byte>)
    requires |indices| == |maxes| && forall m :: 0 <= m < |maxes| ==> 0 <= indices[m] < maxes[m] <= 256
    ensures AllPositive(maxes) && Draws(stream, maxes) == Some((indices, rest))
  {
    if maxes == [] {
      stream := rest;
    } else {
      var tail := DrawsThemselves(indices[1..], maxes[1..], rest);
      stream := [indices[0] as byte] + tail;
      DrawsItself(indices[0], maxes[0], tail);
      assert indices == [indices[0]] + indices[1..];
    }
  }

  lemma DrawsItself(b: byte, max: int, tail: seq<byte>)
    requires b as int < max <= 256
    ensures FirstAccepted([b] + tail, Limit(max)) == Some((b, tail)) && b as int % max == b as int
  {
    LimitIsAbove(max);
    assert ([b] + tail)[1..] == tail;
    RemainderOfRound(max, 0, b as int);
  }

  lemma LimitIsAbove(max: int)
    requires 1 <= max <= 256
    ensures Limit(max) >= max
  {
    if max > 128 && max < 256 {
      RemainderOfRound(max, 1, 256 - max);
    } else if max <= 128 {
      LimitIsLarge(max);
    }
  }

  /** Every string of an allowed length that has all classes is the password of some stream. */
  lemma EveryPassword(p: string) returns (stream: seq<byte>)
    requires 4 <= |p| <= 256 && HasAllClasses(p) && forall c :: c in p ==> c in ALL
    ensures PasswordOf(stream, |p|) == Some(p)
  {
    var q := Arranged(p);
    var indices := IndicesOf(q);
    var js := ShuffleReaches(q, p);
    var rest := DrawsThemselves(js, ShuffleBounds(|p|), []);
    AlphabetsArePositive(|p|);
    assert forall m :: 0 <= m < |p| ==> Alphabets(|p|)[m] == |AlphabetAt(m)|;
    stream := DrawsThemselves(indices, Alphabets(|p|), rest);
  }

  // ---- The object ----

  class Random {
    var stream: seq<byte>

    constructor (stream: seq<byte>)
      ensures this.stream == stream
    {
      this.stream := stream;
    }

    /** None when `max` is not positive or the source of randomness fails. */
    method RandomIndex(max: int) returns (index: Option<int>)
      modifies this
      ensures max <= 0 ==> index == None && stream == old(stream)
      ensures max > 0 ==>
        match FirstAccepted(old(stream), Limit(max))
        case None => index == None && stream == []
        case Some((b, rest)) => index == Some(b as int % max) && stream == rest
      // In so many words: the first byte below the limit decides, and those before it are thrown away.
      ensures max > 0 ==>
        exists k: nat :: FirstBelow(old(stream), 256 - 256 % max, k) &&
          if k == |old(stream)| then index == None && stream == []
          else index == Some(old(stream)[k] as int % max) && stream == old(stream)[k + 1..]
      ensures index.Some? ==> 0 <= index.value < max
    {
      if max <= 0 {
        return None;
      }
      ghost var k := FirstAcceptedIsFirst(stream, Limit(max));
      while true
        invariant FirstAccepted(stream, Limit(max)) == FirstAccepted(old(stream), Limit(max))
        decreases |stream|
      {
        if stream == [] {
          return None;
        }
        var b := stream[0];
        stream := stream[1..];
        var limit := 256 - 256 % max;
        if b as int < limit {
          return Some(b as int % max);
        }
      }
    }

    method RandomChar(alphabet: string) returns (c: Option<char>)
      modifies this
      ensures alphabet == "" ==> c == None && stream == old(stream)
      ensures alphabet != "" ==>
        match FirstAccepted(old(stream), Limit(|alphabet|))
        case None => c == None && stream == []
        case Some((b, rest)) => c == Some(alphabet[b as int % |alphabet|]) && stream == rest
    {
      var n := RandomIndex(|alphabet|);
      c := if n.None? then None else Some(alphabet[n.value]);
    }

    static method SwapAt(data: array<char>, i: nat, j: nat)
      requires i < data.Length && j < data.Length
      modifies data
      ensures data[..] == Swap(old(data[..]), i, j)
    {
      data[i], data[j] := data[j], data[i];
    }

    /** Fisher-Yates, in place: the shuffle by the choices drawn from the stream, the last index first;
        it fails exactly when the stream runs out, and then has still only permuted. */
    method ShuffleBytes(data: array<char>) returns (ok: bool)
      modifies this, data
      ensures match Draws(old(stream), ShuffleBounds(data.Length))
        case None => !ok
        case Some((choices, rest)) => ok && data[..] == Shuffled(old(data[..]), choices) && stream == rest
      ensures multiset(data[..]) == multiset(old(data[..]))
    {
      ghost var was, start, n := data[..], stream, data.Length;
      ghost var js: seq<int> := [];
      ok := true;
      var i := data.Length - 1;
      while i > 0
        invariant -1 <= i == n - 1 - |js| && (n > 0 ==> i >= 0)
        invariant Shuffling(start, n, js, stream) && Shuffles(was, js, data[..])
      {
        ShufflingNext(start, n, js, stream);
        ShufflesPermute(was, js, data[..]);
        var j := RandomIndex(i + 1);
        if j.None? {
          return false;
        }
        ShufflesNext(was, js, data[..], i, j.value);
        SwapAt(data, i, j.value);
        js := js + [j.value];
        i := i - 1;
      }
      ShufflesPermute(was, js, data[..]);
      assert ShuffleBounds(n)[..|js|] == ShuffleBounds(n);
    }

    /** The characters of a password before the shuffle. */
    method DrawCharacters(length: nat) returns (result: Option<string>)
      modifies this
      ensures match CharacterDraws(old(stream), length)
        case None => result == None
        case Some((indices, rest)) => InAlphabets(indices) && result == Some(Characters(indices)) && stream == rest
    {
      ghost var start := stream;
      ghost var indices: seq<int> := [];
      var chars: string := "";
      while |chars| < length
        invariant |chars| == |indices| <= length
        invariant Drawing(start, length, indices, stream) && chars == Characters(indices)
        decreases length - |chars|
      {
        DrawingNext(start, length, indices, stream);
        ghost var before := stream;
        var alphabet := AlphabetAt(|chars|);
        var c := RandomChar(alphabet);
        if c.None? {
          return None;
        }
        ghost var index := FirstAccepted(before, Limit(|alphabet|)).value.0 as int % |alphabet|;
        CharactersNext(indices, index);
        indices, chars := indices + [index], chars + [c.value];
      }
      assert Alphabets(length)[..|indices|] == Alphabets(length);
      result := Some(chars);
    }

    /** The password of the stream, if there is one: of the asked length, at least eight when less than
        four is asked for, with a character of each class and none outside them. */
    method GeneratePassword(asked: int) returns (password: Option<string>)
      modifies this
      ensures password == PasswordOf(old(stream), Length(asked))
      ensures password.Some? ==>
        && |password.value| == (if asked < 4 then 8 else asked)
        && HasAllClasses(password.value)
        && forall c :: c in password.value ==> c in ALL
    {
      var length := Length(asked);
      ghost var drawn := CharacterDraws(stream, length);
      var result := DrawCharacters(length);
      if result.None? {
        return None;
      }
      var data := new char[length](i requires 0 <= i < |result.value| => result.value[i]);
      assert data[..] == result.value;
      var ok := ShuffleBytes(data);
      if !ok {
        return None;
      }
      password := Some(data[..]);
      CharactersAreMixed(drawn.value.0);
      SameCharacters(result.value, data[..]);
      SameClasses(result.value, data[..]);
    }
  }
}
