/**
 Observed-set keys: "<prefix>" or, with ADD-PATH receive negotiated, "<prefix>:<path-id>",
 and the parser that canonicalizes what a script asks to wait for (bgp.go).
 Strings are sequences of octets, as strings.IndexByte sees them.
 */
module PathKey {
  import opened Outcomes

  const MAX_ID: nat := 0xFFFF_FFFF

  /** Least position from i on that holds c, or |s|. */
  function FirstFrom(s: string, c: char, i: nat): (r: nat)
    requires i <= |s|
    ensures i <= r <= |s| && (r < |s| ==> s[r] == c) && forall j :: i <= j < r ==> s[j] != c
    decreases |s| - i
  {
    if i == |s| || s[i] == c then i else FirstFrom(s, c, i + 1)
  }

  /** Greatest position below n that holds c, or -1. */
  function LastBelow(s: string, c: char, n: nat): (r: int)
    requires n <= |s|
    ensures -1 <= r < n && (0 <= r ==> s[r] == c) && forall j :: r < j < n ==> s[j] != c
  {
    if n == 0 then -1 else if s[n - 1] == c then n - 1 else LastBelow(s, c, n - 1)
  }

  /** strings.IndexByte */
  function Index(s: string, c: char): (r: int)
    ensures -1 <= r < |s|
    ensures r < 0 ==> c !in s
    ensures 0 <= r ==> s[r] == c && c !in s[..r]
  {
    var first := FirstFrom(s, c, 0);
    if first == |s| then -1 else first
  }

  /** strings.LastIndexByte */
  function LastIndex(s: string, c: char): (r: int)
    ensures -1 <= r < |s|
    ensures r < 0 ==> c !in s
    ensures 0 <= r ==> s[r] == c && c !in s[r + 1..]
  {
    LastBelow(s, c, |s|)
  }

  predicate IsDigit(c: char) { '0' <= c <= '9' }

  predicate AllDigits(s: string) { forall i :: 0 <= i < |s| ==> IsDigit(s[i]) }

  function Digit(n: nat): char
    requires n < 10
  {
    '0' + n as char
  }

  /** strconv.FormatUint(n, 10) */
  function Decimal(n: nat): (s: string)
    ensures |s| > 0 && AllDigits(s)
  {
    if n < 10 then [Digit(n)] else Decimal(n / 10) + [Digit(n % 10)]
  }

  function Value(s: string): nat
    requires AllDigits(s)
  {
    if s == "" then 0 else 10 * Value(s[..|s| - 1]) + (s[|s| - 1] as int - '0' as int)
  }

  /** strconv.ParseUint(s, 10, 32): no sign, no underscore, no value beyond 32 bits. */
  function ParseUint32(s: string): Option<nat> {
    if s != "" && AllDigits(s) && Value(s) <= MAX_ID then Some(Value(s)) else None
  }

  datatype Split = Split(base: string, suffix: string)

  /** The text around the first ':' that follows the last '/', if there is one. */
  function Cut(s: string): Option<(string, string)> {
    var slash := LastIndex(s, '/');
    if slash < 0 then None
    else
      var colon := Index(s[slash + 1..], ':');
      if colon < 0 then None
      else Some(Around(s, slash + 1 + colon))
  }

  function Around(s: string, k: nat): (string, string)
    requires k < |s|
  {
    (s[..k], s[k + 1..])
  }

  function SplitPathId(s: string): Result<Split, string> {
    match Cut(s)
    case None => Ok(Split(s, ""))
    case Some((base, idStr)) =>
      match ParseUint32(idStr)
      case None => Err(idStr)
      case Some(id) => Ok(Split(base, ":" + Decimal(id)))
  }

  /** PathNLRI.String() */
  function PathString(prefix: string, id: nat): string {
    prefix + ":" + Decimal(id)
  }

  /** A prefix as netip prints it: a '/', and no ':' after the last one. */
  ghost predicate PrefixShaped(p: string) {
    '/' in p && ':' !in p[LastIndex(p, '/') + 1..]
  }

  lemma {:induction false} ValueOfDecimal(n: nat)
    ensures Value(Decimal(n)) == n
    ensures 0 < n ==> Decimal(n)[0] != '0'
  {
    if n >= 10 {
      ValueOfDecimal(n / 10);
      assert Decimal(n)[..|Decimal(n)| - 1] == Decimal(n / 10);
    }
  }

  lemma LastIndexUnique(s: string, c: char, i: nat)
    requires i < |s| && s[i] == c && c !in s[i + 1..]
    ensures LastIndex(s, c) == i
  {
  }

  lemma IndexUnique(s: string, c: char, i: nat)
    requires i < |s| && s[i] == c && c !in s[..i]
    ensures Index(s, c) == i
  {
  }

  lemma SlashOfSuffixed(p: string, t: string)
    requires PrefixShaped(p) && '/' !in t
    ensures LastIndex(p + ":" + t, '/') == LastIndex(p, '/')
  {
    var s, slash := p + ":" + t, LastIndex(p, '/');
    assert s[slash + 1..] == p[slash + 1..] + ":" + t;
    LastIndexUnique(s, '/', slash);
  }

  lemma ColonOfSuffixed(head: string, t: string)
    requires ':' !in head
    ensures Index(head + ":" + t, ':') == |head|
  {
    assert (head + ":" + t)[..|head|] == head;
    IndexUnique(head + ":" + t, ':', |head|);
  }

  lemma CutAt(s: string, slash: nat, colon: nat)
    requires LastIndex(s, '/') == slash && Index(s[slash + 1..], ':') == colon
    ensures slash + 1 + colon < |s| && Cut(s) == Some(Around(s, slash + 1 + colon))
  {
  }

  lemma CutSuffix(p: string, t: string)
    requires PrefixShaped(p) && '/' !in t
    ensures Cut(p + ":" + t) == Some((p, t))
  {
    var s, slash := p + ":" + t, LastIndex(p, '/');
    SlashOfSuffixed(p, t);
    assert s[slash + 1..] == p[slash + 1..] + ":" + t;
    ColonOfSuffixed(p[slash + 1..], t);
    CutAt(s, slash, |p| - slash - 1);
    AroundColon(p, t);
  }

  lemma AroundColon(p: string, t: string)
    ensures Around(p + ":" + t, |p|) == (p, t)
  {
    var s := p + ":" + t;
    assert s[..|p|] == p && s[|p| + 1..] == t;
  }

  lemma CutIsSound(s: string)
    ensures match Cut(s)
            case None => '/' in s ==> PrefixShaped(s)
            case Some((base, t)) => s == base + ":" + t && PrefixShaped(base)
  {
    var slash := LastIndex(s, '/');
    if 0 <= slash {
      var colon := Index(s[slash + 1..], ':');
      if 0 <= colon {
        CutAt(s, slash, colon);
        CutBase(s, slash, colon);
      }
    }
  }

  lemma CutBase(s: string, slash: nat, colon: nat)
    requires slash + 1 + colon < |s| && s[slash] == '/' && s[slash + 1 + colon] == ':'
    requires '/' !in s[slash + 1..] && ':' !in s[slash + 1..][..colon]
    ensures var (base, t) := Around(s, slash + 1 + colon);
            PrefixShaped(base) && s == base + ":" + t
  {
    var base, tail := s[..slash + 1 + colon], s[slash + 1..];
    assert base[slash + 1..] == tail[..colon];
    assert forall i :: 0 <= i < colon ==> base[slash + 1..][i] == tail[i];
    LastIndexUnique(base, '/', slash);
  }

  /** Everything the parser does with a prefix and a suffix: the prefix comes back untouched, a
      32-bit decimal is reprinted canonically (leading zeros gone), anything else is an error. */
  lemma SplitSuffix(p: string, t: string)
    requires PrefixShaped(p) && '/' !in t
    ensures SplitPathId(p + ":" + t) ==
            if ParseUint32(t).Some? then Ok(Split(p, ":" + Decimal(ParseUint32(t).value))) else Err(t)
  {
    CutSuffix(p, t);
  }

  /** A bare prefix, and anything that is no prefix at all, is accepted as it is. */
  lemma SplitBare(s: string)
    requires PrefixShaped(s) || '/' !in s
    ensures SplitPathId(s) == Ok(Split(s, ""))
  {
    if PrefixShaped(s) {
      var slash := LastIndex(s, '/');
      assert Index(s[slash + 1..], ':') < 0;
    }
  }

  function Pow10(n: nat): nat { if n == 0 then 1 else 10 * Pow10(n - 1) }

  lemma ValueSnoc(s: string, c: char)
    requires AllDigits(s) && IsDigit(c)
    ensures AllDigits(s + [c]) && Value(s + [c]) == 10 * Value(s) + (c as int - '0' as int)
  {
    assert (s + [c])[..|s|] == s;
  }

  lemma Tenfold(x: nat, p: nat)
    ensures x * (10 * p) == 10 * (x * p)
  {
  }

  /** Decimals are positional, most significant digit first. */
  lemma {:induction false} ValueIsPositional(a: string, b: string)
    requires AllDigits(a) && AllDigits(b)
    ensures Value(a + b) == Value(a) * Pow10(|b|) + Value(b)
  {
    if b == "" {
      assert a + b == a;
    } else {
      var init, last := b[..|b| - 1], b[|b| - 1];
      assert b == init + [last] && a + b == (a + init) + [last];
      ValueIsPositional(a, init);
      ValueSnoc(init, last);
      ValueSnoc(a + init, last);
      Tenfold(Value(a), Pow10(|init|));
    }
  }

  /** Two texts that name the same prefix and identifier, or none, and only those, are the same key. */
  lemma KeyParts(p: string, t: Option<nat>, q: string, u: Option<nat>)
    requires PrefixShaped(p) && PrefixShaped(q)
    ensures p + Suffix(t) == q + Suffix(u) <==> p == q && t == u
  {
    if p + Suffix(t) == q + Suffix(u) {
      CutOfKey(p, t);
      CutOfKey(q, u);
      assert p + "" == p && q + "" == q;
      if t.Some? && u.Some? {
        ValueOfDecimal(t.value);
        ValueOfDecimal(u.value);
      }
    }
  }

  function Suffix(id: Option<nat>): string { if id.Some? then ":" + Decimal(id.value) else "" }

  lemma CutOfKey(p: string, id: Option<nat>)
    requires PrefixShaped(p)
    ensures Cut(p + Suffix(id)) == if id.Some? then Some((p, Decimal(id.value))) else None
  {
    if id.Some? {
      assert '/' !in Decimal(id.value);
      CutSuffix(p, Decimal(id.value));
      assert p + Suffix(id) == p + ":" + Decimal(id.value);
    } else {
      assert p + Suffix(id) == p;
      assert Index(p[LastIndex(p, '/') + 1..], ':') < 0;
    }
  }

  /** The key the receive path records for (p, id) is read back as exactly (p, id). */
  lemma PathIdRoundTrip(p: string, id: nat)
    requires PrefixShaped(p) && id <= MAX_ID
    ensures SplitPathId(PathString(p, id)) == Ok(Split(p, ":" + Decimal(id)))
  {
    ValueOfDecimal(id);
    assert '/' !in Decimal(id);
    SplitSuffix(p, Decimal(id));
  }

  /** Conversely, whatever the parser accepts is the prefix itself, or a prefix, a colon and a
      decimal that names the identifier in the canonical suffix. */
  lemma SplitIsSound(s: string)
    requires SplitPathId(s).Ok?
    ensures var r := SplitPathId(s).value;
            || (r == Split(s, "") && ('/' in s ==> PrefixShaped(s)))
            || exists t, id :: s == r.base + ":" + t && PrefixShaped(r.base)
                               && ParseUint32(t) == Some(id) && r.suffix == ":" + Decimal(id)
  {
    CutIsSound(s);
    if Cut(s).Some? {
      var t := Cut(s).value.1;
      assert ParseUint32(t) == Some(ParseUint32(t).value);
    }
  }

  /** Distinct paths never share a key, whatever the NLRI's text looks like. */
  lemma PathStringInjective(p: string, i: nat, q: string, j: nat)
    requires PathString(p, i) == PathString(q, j)
    ensures p == q && i == j
  {
    var s := PathString(p, i);
    assert s[|p|] == ':' && s[|p| + 1..] == Decimal(i);
    assert s[|q|] == ':' && s[|q| + 1..] == Decimal(j);
    LastIndexUnique(s, ':', |p|);
    LastIndexUnique(s, ':', |q|);
    assert s[..|p|] == p && s[..|q|] == q;
    ValueOfDecimal(i);
    ValueOfDecimal(j);
  }
}
