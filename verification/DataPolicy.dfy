/** Data policies: parsing, expiry, and what whole-second storage in MySQL does to it. */
module DataPolicy {
  import opened Common
  import opened Pastes
  import opened Text

  const MINUTE := 60 * SECOND
  const HOUR := 60 * MINUTE
  const DAY := 24 * HOUR
  const MAX_CUSTOM := 30 * DAY                         // maxCustomPolicyDuration
  const MAX_INT64 := 0x7FFF_FFFF_FFFF_FFFF

  datatype Policy = Policy(name: string, customDuration: int)

  predicate IsDigits(s: string) {
    forall i :: 0 <= i < |s| ==> '0' <= s[i] <= '9'
  }

  function Number(s: string): nat
    requires IsDigits(s)
  {
    if s == [] then 0 else Number(s[..|s| - 1]) * 10 + (s[|s| - 1] - '0') as int
  }

  /** Nanoseconds per unit, or None for any other letter. */
  function Unit(c: char): Option<int> {
    match c
    case 'm' => Some(MINUTE)
    case 'h' => Some(HOUR)
    case 'd' => Some(DAY)
    case _ => None
  }

  /** Trimmed and in lower case, with the default for nothing. */
  function Canonical(value: string): string {
    var v := Lower(Trim(value));
    if v == "" then "temporary" else v
  }

  predicate IsNamed(v: string) {
    v == "temporary" || v == "permanent" || v == "once"
  }

  /** None is ErrInvalidPolicy. `amount * unit` is taken only after the amount is known to be at
      most what 30 days hold. */
  function ParseDataPolicy(value: string): Option<Policy> {
    var v := Canonical(value);
    if IsNamed(v) then Some(Policy(v, 0)) else ParseCustom(v)
  }

  function ParseCustom(v: string): Option<Policy> {
    if |v| < 2 then None
    else
      var digits := v[..|v| - 1];
      if !IsDigits(digits) then None
      else
        var amount := Number(digits);
        if amount > MAX_INT64 || amount <= 0 then None
        else
          var unit := Unit(v[|v| - 1]);
          if unit.None? || amount > MAX_CUSTOM / unit.value then None
          else if amount * unit.value <= 0 || amount * unit.value > MAX_CUSTOM then None
          else Some(Policy(v, amount * unit.value))
  }

  function Normalized(p: Policy): Policy {
    if p.name == "" then p.(name := "temporary") else p
  }

  function Validated(p: Policy): Option<Policy> {
    var parsed := ParseDataPolicy(p.name);
    if parsed.None? then None
    else if p.customDuration > 0 && parsed.value.customDuration != p.customDuration then None
    else parsed
  }

  /** None is the zero time. */
  function ExpiresAt(p: Policy, now: int, defaultTTL: int): Option<int> {
    var q := Normalized(p);
    if q.name == "permanent" then None
    else if q.customDuration > 0 then Some(now + q.customDuration)
    else Some(now + defaultTTL)
  }

  // ---- What the parts of parsing mean ----

  /** The decimal numeral of `n`. */
  function Decimal(n: nat): (s: string)
    ensures s != "" && IsDigits(s)
  {
    var last := ['0' + (n % 10) as char];
    if n < 10 then last else Decimal(n / 10) + last
  }

  lemma {:induction false} NumberOfDecimal(n: nat)
    ensures Number(Decimal(n)) == n
  {
    var s := Decimal(n);
    if n < 10 {
      assert s[..|s| - 1] == "";
    } else {
      assert s[..|s| - 1] == Decimal(n / 10);
      NumberOfDecimal(n / 10);
    }
  }

  lemma {:induction false} LeadingZeros(s: string)
    requires IsDigits(s)
    ensures IsDigits("0" + s) && Number("0" + s) == Number(s)
  {
    var z := "0" + s;
    if s == "" {
      assert z[..|z| - 1] == "";
    } else {
      LeadingZeros(s[..|s| - 1]);
      assert z[..|z| - 1] == "0" + s[..|s| - 1];
    }
  }

  lemma NumberNext(front: string, c: char)
    requires IsDigits(front) && '0' <= c <= '9'
    ensures IsDigits(front + [c]) && Number(front + [c]) == Number(front) * 10 + (c - '0') as int
  {
    var s := front + [c];
    assert s[..|s| - 1] == front;
  }

  lemma DecimalNext(n: nat, c: char)
    requires '0' <= c <= '9'
    ensures Decimal(n * 10 + (c - '0') as int) == if n == 0 then [c] else Decimal(n) + [c]
  {
    var m := n * 10 + (c - '0') as int;
    assert m / 10 == n && m % 10 == (c - '0') as int;
  }

  /** Without needless zeros a string of digits is the numeral of its number. */
  lemma {:induction false} DigitsAreNumeral(s: string)
    requires s != "" && IsDigits(s) && (|s| == 1 || s[0] != '0')
    ensures s == Decimal(Number(s))
    decreases |s|
  {
    var front, c := s[..|s| - 1], s[|s| - 1];
    assert s == front + [c];
    NumberNext(front, c);
    DecimalNext(Number(front), c);
    if front != "" {
      DigitsAreNumeral(front);
      assert Number(front) == 0 ==> front == ['0'];
    }
  }

  // ---- What parsing accepts ----

  /** A custom policy is a positive whole number of minutes, hours or days up to 30 days, and its
      duration is exactly that; no product on the way leaves the range of int64. */
  lemma CustomPolicies(value: string)
    ensures var r := ParseDataPolicy(value); r.Some? && r.value.customDuration != 0 ==>
      var v := r.value.name;
      && |v| >= 2 && IsDigits(v[..|v| - 1]) && Unit(v[|v| - 1]).Some?
      && r.value.customDuration == Number(v[..|v| - 1]) * Unit(v[|v| - 1]).value
      && 0 < r.value.customDuration <= MAX_CUSTOM < MAX_INT64
  {
  }

  lemma PlainCustom(digits: string, unit: char)
    requires digits != "" && IsDigits(digits) && Unit(unit).Some?
    ensures Canonical(digits + [unit]) == digits + [unit] && !IsNamed(digits + [unit])
  {
    var v := digits + [unit];
    assert !IsSpace(v[0]) && !IsSpace(v[|v| - 1]);
    assert Trim(v) == v;
    assert forall i :: 0 <= i < |v| ==> LowerChar(v[i]) == v[i];
    assert Lower(v) == v;
    assert '0' <= v[0] <= '9' && "temporary"[0] == 't' && "permanent"[0] == 'p' && "once"[0] == 'o';
  }

  lemma ParseCustomIff(v: string)
    requires |v| >= 2 && IsDigits(v[..|v| - 1]) && Unit(v[|v| - 1]).Some?
    ensures ParseCustom(v).Some? <==> 0 < Number(v[..|v| - 1]) * Unit(v[|v| - 1]).value <= MAX_CUSTOM
  {
    WithinLimit(Number(v[..|v| - 1]), Unit(v[|v| - 1]).value);
  }

  lemma WithinLimit(amount: nat, unit: int)
    requires unit == MINUTE || unit == HOUR || unit == DAY
    ensures amount <= MAX_CUSTOM / unit <==> amount * unit <= MAX_CUSTOM
    ensures amount * unit > 0 <==> amount > 0
  {
    if unit == MINUTE {
    } else if unit == HOUR {
    } else {
    }
  }

  /** A number with a unit is accepted if and only if it means more than nothing and at most 30 days. */
  lemma CustomIff(digits: string, unit: char)
    requires digits != "" && IsDigits(digits) && Unit(unit).Some?
    ensures ParseDataPolicy(digits + [unit]).Some? <==> 0 < Number(digits) * Unit(unit).value <= MAX_CUSTOM
  {
    var v := digits + [unit];
    assert v[..|v| - 1] == digits && v[|v| - 1] == unit;
    PlainCustom(digits, unit);
    ParseCustomIff(v);
  }

  /** In figures: up to 43200 minutes, 720 hours or 30 days, counted in nanoseconds. */
  lemma CustomDurations(n: nat, unit: char, nanoseconds: int, most: nat)
    requires
      || (unit == 'm' && nanoseconds == 60_000_000_000 && most == 43200)
      || (unit == 'h' && nanoseconds == 3_600_000_000_000 && most == 720)
      || (unit == 'd' && nanoseconds == 86_400_000_000_000 && most == 30)
    ensures var v := Decimal(n) + [unit];
      ParseDataPolicy(v) == if 1 <= n <= most then Some(Policy(v, n * nanoseconds)) else None
  {
    var v := Decimal(n) + [unit];
    assert Unit(unit) == Some(nanoseconds);
    assert v[..|v| - 1] == Decimal(n) && v[|v| - 1] == unit;
    NumberOfDecimal(n);
    PlainCustom(Decimal(n), unit);
    ParseCustomIff(v);
    WithinLimit(n, nanoseconds);
  }

  /** No other letter is a unit. */
  lemma OtherUnits(n: nat, unit: char)
    requires !IsSpace(unit) && LowerChar(unit) != 'm' && LowerChar(unit) != 'h' && LowerChar(unit) != 'd'
    ensures ParseDataPolicy(Decimal(n) + [unit]) == None
  {
    var v := Decimal(n) + [unit];
    var w := Lower(v);
    assert Trim(v) == v;
    assert w[0] == v[0] && w[|w| - 1] == LowerChar(unit);
    assert '0' <= w[0] <= '9' && "temporary"[0] == 't' && "permanent"[0] == 'p' && "once"[0] == 'o';
  }

  /** Neither case nor space around it changes what a policy means. */
  lemma CaseAndSpaceDoNotCount(left: string, v: string, right: string)
    requires forall i :: 0 <= i < |left| ==> IsSpace(left[i])
    requires forall i :: 0 <= i < |right| ==> IsSpace(right[i])
    requires v == "" || (!IsSpace(v[0]) && !IsSpace(v[|v| - 1]))
    ensures ParseDataPolicy(left + v + right) == ParseDataPolicy(Lower(v))
  {
    TrimIgnoresSpace(left, v, right);
    LowerIsSmall(v);
    if v != "" {
      LowerKeepsSpace(v);
    } else {
      assert Lower(v) == "";
    }
  }

  /** The names are accepted in any case and with any space around them; nothing at all means "temporary". */
  lemma NamesAreAccepted(left: string, name: string, right: string)
    requires forall i :: 0 <= i < |left| ==> IsSpace(left[i])
    requires forall i :: 0 <= i < |right| ==> IsSpace(right[i])
    requires Lower(name) == "temporary" || Lower(name) == "permanent" || Lower(name) == "once" || name == ""
    ensures ParseDataPolicy(left + name + right) == Some(Policy(if name == "" then "temporary" else Lower(name), 0))
  {
    if name != "" {
      NamesAreTrimmed(name);
    }
    TrimIgnoresSpace(left, name, right);
    assert name == "" ==> Lower(name) == "";
  }

  lemma NamesAreTrimmed(name: string)
    requires Lower(name) == "temporary" || Lower(name) == "permanent" || Lower(name) == "once"
    ensures name != "" && !IsSpace(name[0]) && !IsSpace(name[|name| - 1])
  {
    var v := Lower(name);
    assert v[0] == LowerChar(name[0]) && v[|v| - 1] == LowerChar(name[|name| - 1]);
    assert !IsSpace(v[0]) && !IsSpace(v[|v| - 1]);
  }

  lemma LowerKeepsSpace(s: string)
    requires s != "" && !IsSpace(s[0]) && !IsSpace(s[|s| - 1])
    ensures Trim(Lower(s)) == Lower(s)
  {
    assert !IsSpace(Lower(s)[0]) && !IsSpace(Lower(s)[|s| - 1]);
  }

  /** Parsing the name of a parsed policy gives the same policy, so validating twice changes nothing. */
  lemma ReparseIsStable(value: string)
    requires ParseDataPolicy(value).Some?
    ensures ParseDataPolicy(ParseDataPolicy(value).value.name) == ParseDataPolicy(value)
    ensures Validated(ParseDataPolicy(value).value) == ParseDataPolicy(value)
  {
    var name := ParseDataPolicy(value).value.name;
    TrimIsTrimmed(value);
    if Trim(value) != "" {
      LowerKeepsSpace(Trim(value));
      LowerIsSmall(Trim(value));
    }
    assert Lower(Trim(name)) == name;
  }

  // ---- Over all runs: the policy and the expiry of a stored paste ----

  /** A paste never expires exactly if its policy says so. */
  predicate Coherent(m: Metadata) {
    m.dataPolicy == "permanent" <==> m.expiresAt.None?
  }

  /** What create and SetDataPolicy store for a parsed policy. */
  function WithPolicy(m: Metadata, p: Policy, now: int, ttl: int): Metadata {
    m.(dataPolicy := p.name, expiresAt := ExpiresAt(p, now, ttl))
  }

  /** When a parsed policy expires: never if permanent, after exactly its own duration if it has one,
      after the default otherwise; always after now, by at most 30 days or the default. */
  lemma ExpiryIsTimely(value: string, now: int, ttl: int)
    requires ParseDataPolicy(value).Some? && ttl > 0
    ensures var p := ParseDataPolicy(value).value; var e := ExpiresAt(p, now, ttl);
      && (e.None? <==> Canonical(value) == "permanent")
      && (Canonical(value) == "temporary" || Canonical(value) == "once" ==> e == Some(now + ttl))
      && (e.Some? && !IsNamed(Canonical(value)) ==>
            var v := Canonical(value);
            |v| >= 2 && IsDigits(v[..|v| - 1]) && Unit(v[|v| - 1]).Some?
            && e == Some(now + Number(v[..|v| - 1]) * Unit(v[|v| - 1]).value))
      && (e.Some? ==> now < e.value <= now + (if ttl > MAX_CUSTOM then ttl else MAX_CUSTOM))
  {
    CustomPolicies(value);
  }

  lemma WithPolicyIsCoherent(m: Metadata, value: string, now: int, ttl: int)
    requires ParseDataPolicy(value).Some?
    ensures Coherent(WithPolicy(m, ParseDataPolicy(value).value, now, ttl))
  {
  }

  /** What is stored is in MySQL still coherent, except for an expiry in the first second of 1970. */
  lemma ReadBackIsCoherent(m: Metadata)
    requires Coherent(m)
    ensures Coherent(ReadBack(m)) <==> !(m.expiresAt.Some? && 0 <= m.expiresAt.value < SECOND)
  {
  }

  // ---- Whole seconds ----

  /** The clean-up statement, the exact expiry and the check on the stored row, in the order in
      which they can fire: cleaned up implies expired, and expired implies expired as stored, unless
      the expiry is in the first second of 1970, which is stored as none; and the stored row fires
      less than a second early. */
  lemma CleanupImpliesExpired(m: Metadata, now: int)
    requires m.expiresAt.Some? && Lower(m.dataPolicy) != "permanent"
    ensures SqlExpired(NullUnix(m.expiresAt), now) ==> IsExpired(m, now)
    ensures now >= m.expiresAt.value + SECOND ==> SqlExpired(NullUnix(m.expiresAt), now)
    ensures IsExpired(m, now) && !IsExpired(ReadBack(m), now) <==> IsExpired(m, now) && 0 <= m.expiresAt.value < SECOND
    ensures IsExpired(ReadBack(m), now) ==> now > m.expiresAt.value - SECOND
    ensures NullUnix(ReadBack(m).expiresAt) == NullUnix(m.expiresAt) <==> !(0 <= m.expiresAt.value < SECOND)
  {
  }

  /** A permanent paste is never deleted by the clean-up nor hidden by the check. */
  lemma PermanentIsForever(m: Metadata, now: int)
    requires Coherent(m) && m.dataPolicy == "permanent"
    ensures !IsExpired(m, now) && !IsExpired(ReadBack(m), now) && !SqlExpired(NullUnix(m.expiresAt), now)
  {
    assert Lower("permanent") == "permanent";
  }
}
