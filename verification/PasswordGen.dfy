/** Policy-driven password generation (passwordgen.py), with every random choice a parameter. */
module PasswordGen {
  import opened Basics

  const UPPER := "ABCDEFGHIJKLMNOPQRSTUVWXYZ"
  const LOWER := "abcdefghijklmnopqrstuvwxyz"
  const DIGITS := "0123456789"
  const SYMBOLS := "!@#$%^&*()-_=+[]{};:,.<>?/"
  const AMBIGUOUS := "Il1O0"

  const MIN_LENGTH := 8
  const MAX_LENGTH := 256

  datatype PasswordPolicy = PasswordPolicy(
    length: int,
    useUpper: bool,
    useLower: bool,
    useDigits: bool,
    useSymbols: bool,
    excludeAmbiguous: bool)

  function Strip(pool: string): string {
    if pool == "" then ""
    else (if pool[0] in AMBIGUOUS then "" else [pool[0]]) + Strip(pool[1..])
  }

  /** The category pools of a policy, before and after the two emptiness checks. */
  function Categories(p: PasswordPolicy): seq<string> {
    (if p.useUpper then [UPPER] else []) + (if p.useLower then [LOWER] else [])
    + (if p.useDigits then [DIGITS] else []) + (if p.useSymbols then [SYMBOLS] else [])
  }

  function StripAll(pools: seq<string>): (r: seq<string>)
    ensures |r| == |pools| && forall i :: 0 <= i < |pools| ==> r[i] == Strip(pools[i])
  {
    seq(|pools|, i requires 0 <= i < |pools| => Strip(pools[i]))
  }

  function Pools(p: PasswordPolicy): seq<string> {
    if p.excludeAmbiguous then StripAll(Categories(p)) else Categories(p)
  }

  /** Which category a character belongs to. */
  predicate OfCategory(c: char, k: int) {
    match k
    case 0 => 'A' <= c <= 'Z'
    case 1 => 'a' <= c <= 'z'
    case 2 => '0' <= c <= '9'
    case _ => !('A' <= c <= 'Z') && !('a' <= c <= 'z') && !('0' <= c <= '9')
  }

  lemma {:induction false} StripKeeps(pool: string, c: char)
    ensures c in Strip(pool) <==> c in pool && c !in AMBIGUOUS
  {
    if pool != "" {
      StripKeeps(pool[1..], c);
      assert pool == [pool[0]] + pool[1..];
    }
  }

  lemma CategoryChars()
    ensures forall c :: c in UPPER ==> OfCategory(c, 0)
    ensures forall c :: c in LOWER ==> OfCategory(c, 1)
    ensures forall c :: c in DIGITS ==> OfCategory(c, 2)
    ensures forall c :: c in SYMBOLS ==> OfCategory(c, 3)
    ensures 'A' in UPPER && 'a' in LOWER && '2' in DIGITS && '!' in SYMBOLS
  {
    assert UPPER[0] == 'A' && LOWER[0] == 'a' && DIGITS[2] == '2' && SYMBOLS[0] == '!';
  }

  lemma CategoryDistinct(c: char, j: int, k: int)
    requires 0 <= j < k <= 3 && OfCategory(c, j)
    ensures !OfCategory(c, k)
  {
  }

  /** Which of the four categories the pools of a policy are, in order. */
  function Kinds(p: PasswordPolicy): seq<int> {
    (if p.useUpper then [0] else []) + (if p.useLower then [1] else [])
    + (if p.useDigits then [2] else []) + (if p.useSymbols then [3] else [])
  }

  function Category(k: int): string {
    match k
    case 0 => UPPER
    case 1 => LOWER
    case 2 => DIGITS
    case _ => SYMBOLS
  }

  lemma CategoriesAre(p: PasswordPolicy)
    ensures |Categories(p)| == |Kinds(p)| <= 4
    ensures forall i :: 0 <= i < |Kinds(p)| ==> 0 <= Kinds(p)[i] <= 3 && Categories(p)[i] == Category(Kinds(p)[i])
    ensures forall i, j :: 0 <= i < j < |Kinds(p)| ==> Kinds(p)[i] < Kinds(p)[j]
  {
  }

  lemma CategoryKind(k: int)
    requires 0 <= k <= 3
    ensures forall c :: c in Category(k) ==> OfCategory(c, k)
    ensures exists c :: c in Category(k) && c !in AMBIGUOUS
  {
    CategoryChars();
    var c := if k == 0 then 'A' else if k == 1 then 'a' else if k == 2 then '2' else '!';
    assert c in Category(k) && c !in AMBIGUOUS;
  }

  /** Stripping never empties a pool, and the pools share no character. */
  lemma PoolFacts(p: PasswordPolicy)
    ensures |Pools(p)| == |Categories(p)| <= 4
    ensures forall i :: 0 <= i < |Pools(p)| ==> Pools(p)[i] != ""
    ensures Disjoint(Pools(p))
  {
    CategoriesAre(p);
    var pools, kinds := Pools(p), Kinds(p);
    hide Kinds, Category, OfCategory, Strip, Categories;
    forall i | 0 <= i < |pools|
      ensures pools[i] != "" && forall c :: c in pools[i] ==> OfCategory(c, kinds[i])
    {
      CategoryKind(kinds[i]);
      var c :| c in Category(kinds[i]) && c !in AMBIGUOUS;
      StripKeeps(Category(kinds[i]), c);
      forall x | x in pools[i] ensures OfCategory(x, kinds[i]) {
        StripKeeps(Category(kinds[i]), x);
      }
    }
    forall i, j, c | 0 <= i < j < |pools| && c in pools[i] ensures c !in pools[j] {
      CategoryDistinct(c, kinds[i], kinds[j]);
    }
  }

  predicate Disjoint(pools: seq<string>) {
    forall i, j, c :: 0 <= i < j < |pools| && c in pools[i] ==> c !in pools[j]
  }

  /** The characters of each category, one by one. */
  predicate InCategory(c: char, k: int) {
    match k
    case 0 => 'A' <= c <= 'Z'
    case 1 => 'a' <= c <= 'z'
    case 2 => '0' <= c <= '9'
    case _ => c in "!@#$%^&*()-_=+[]{};:,.<>?/"
  }

  /** The characters a password may have: those of the enabled categories, and without the ones
      that are easily confused if the policy says so. */
  predicate Allowed(p: PasswordPolicy, c: char) {
    && (|| (p.useUpper && InCategory(c, 0)) || (p.useLower && InCategory(c, 1))
        || (p.useDigits && InCategory(c, 2)) || (p.useSymbols && InCategory(c, 3)))
    && (p.excludeAmbiguous ==> c !in "Il1O0")
  }

  lemma Alphabets()
    ensures forall i :: 0 <= i < 26 ==> UPPER[i] as int == 'A' as int + i && LOWER[i] as int == 'a' as int + i
    ensures forall i :: 0 <= i < 10 ==> DIGITS[i] as int == '0' as int + i
    ensures |UPPER| == |LOWER| == 26 && |DIGITS| == 10
  {
  }

  lemma CategoryIs(k: int, c: char)
    requires 0 <= k <= 3
    ensures c in Category(k) <==> InCategory(c, k)
  {
    Alphabets();
    if k < 3 && InCategory(c, k) {
      var i := c as int - Category(k)[0] as int;
      assert Category(k)[i] == c;
    }
  }

  /** Each pool holds the characters of its category, less the ambiguous ones if those are excluded. */
  lemma InPool(p: PasswordPolicy, i: nat, c: char)
    requires i < |Kinds(p)|
    ensures |Pools(p)| == |Kinds(p)| && 0 <= Kinds(p)[i] <= 3
    ensures c in Pools(p)[i] <==> InCategory(c, Kinds(p)[i]) && (p.excludeAmbiguous ==> c !in "Il1O0")
  {
    CategoriesAre(p);
    hide Kinds, Category, Categories, Strip;
    CategoryIs(Kinds(p)[i], c);
    StripKeeps(Category(Kinds(p)[i]), c);
  }

  lemma KindsAre(p: PasswordPolicy)
    ensures p.useUpper <==> 0 in Kinds(p)
    ensures p.useLower <==> 1 in Kinds(p)
    ensures p.useDigits <==> 2 in Kinds(p)
    ensures p.useSymbols <==> 3 in Kinds(p)
    ensures |Kinds(p)| == |Pools(p)| <= 4 && forall k :: k in Kinds(p) ==> 0 <= k <= 3
  {
    CategoriesAre(p);
  }

  lemma AllowedInPools(p: PasswordPolicy)
    ensures forall c :: c in Join(Pools(p)) <==> Allowed(p, c)
  {
    KindsAre(p);
    hide Kinds, Pools, Join, InCategory;
    forall c ensures c in Join(Pools(p)) <==> Allowed(p, c) {
      InJoin(Pools(p), c);
      forall i | 0 <= i < |Kinds(p)|
        ensures c in Pools(p)[i] <==> InCategory(c, Kinds(p)[i]) && (p.excludeAmbiguous ==> c !in "Il1O0")
      {
        InPool(p, i, c);
      }
      if Allowed(p, c) {
        var k := if p.useUpper && InCategory(c, 0) then 0 else if p.useLower && InCategory(c, 1) then 1
                 else if p.useDigits && InCategory(c, 2) then 2 else 3;
        assert k in Kinds(p) && InCategory(c, k);
        var i :| 0 <= i < |Kinds(p)| && Kinds(p)[i] == k;
        assert c in Pools(p)[i];
      }
      if i :| 0 <= i < |Pools(p)| && c in Pools(p)[i] {
        assert Kinds(p)[i] in Kinds(p);
      }
    }
  }

  function NonEmpty(pools: seq<string>): (r: seq<string>)
    ensures (forall i :: 0 <= i < |pools| ==> pools[i] != "") ==> r == pools
  {
    if pools == [] then []
    else (if pools[0] != "" then [pools[0]] else []) + NonEmpty(pools[1..])
  }

  /** The enabled pools. The second emptiness check never fires: no category is all ambiguous. */
  method SelectPools(p: PasswordPolicy) returns (r: Result<seq<string>>)
    ensures r == if p.useUpper || p.useLower || p.useDigits || p.useSymbols then Ok(Pools(p)) else Err(ValueError)
    ensures r.Ok? ==> forall c :: c in Join(r.value) <==> Allowed(p, c)
  {
    PoolFacts(p);
    AllowedInPools(p);
    hide Strip, Disjoint, Join, Allowed;
    var selected := [];
    if p.useUpper { selected := selected + [UPPER]; }
    if p.useLower { selected := selected + [LOWER]; }
    if p.useDigits { selected := selected + [DIGITS]; }
    if p.useSymbols { selected := selected + [SYMBOLS]; }
    assert selected == Categories(p);
    if selected == [] {
      return Err(ValueError);
    }
    if p.excludeAmbiguous {
      selected := NonEmpty(StripAll(selected));
    }
    return Ok(selected);
  }

  /** An acceptable length, and a category to draw from. */
  predicate Acceptable(p: PasswordPolicy) {
    8 <= p.length <= 256 && (p.useUpper || p.useLower || p.useDigits || p.useSymbols)
  }

  /** A policy is refused exactly for its length or for enabling no category: eight characters
      always have room for one of each category. */
  method Validate(p: PasswordPolicy) returns (r: Result<()>)
    ensures r == if Acceptable(p) then Ok(()) else Err(ValueError)
  {
    PoolFacts(p);
    hide Strip, Disjoint;
    if !(MIN_LENGTH <= p.length <= MAX_LENGTH) {
      return Err(ValueError);
    }
    var pools :- SelectPools(p);
    if p.length < |pools| {
      return Err(ValueError);
    }
    return Ok(());
  }

  function Join(pools: seq<string>): string {
    if pools == [] then "" else pools[0] + Join(pools[1..])
  }

  lemma {:induction false} InJoin(pools: seq<string>, c: char)
    ensures c in Join(pools) <==> exists i :: 0 <= i < |pools| && c in pools[i]
  {
    if pools != [] {
      InJoin(pools[1..], c);
      if c in Join(pools[1..]) {
        var i :| 0 <= i < |pools[1..]| && c in pools[1..][i];
        assert c in pools[i + 1];
      }
      if i :| 0 <= i < |pools| && c in pools[i] {
        assert i > 0 ==> c in pools[1..][i - 1];
      }
    }
  }

  /** Draws that the random source can make: one index into each pool, then indices into the
      combined pool, then for the last position down to the second one the position to swap with. */
  predicate Drawable(p: PasswordPolicy, picks: seq<nat>, swaps: seq<nat>) {
    var pools := Pools(p);
    && |picks| == p.length && |swaps| == p.length - 1
    && (forall i :: 0 <= i < |picks| ==> picks[i] < |if i < |pools| then pools[i] else Join(pools)|)
    && SwapsFit(swaps)
  }

  predicate SwapsFit(swaps: seq<nat>) {
    forall x :: 0 <= x < |swaps| ==> swaps[x] <= |swaps| - x
  }

  function Chosen(pools: seq<string>, picks: seq<nat>): (r: string)
    requires forall i :: 0 <= i < |picks| ==> picks[i] < |if i < |pools| then pools[i] else Join(pools)|
    ensures |r| == |picks|
    ensures forall i :: 0 <= i < |picks| ==> r[i] == (if i < |pools| then pools[i] else Join(pools))[picks[i]]
  {
    seq(|picks|, i requires 0 <= i < |picks| => (if i < |pools| then pools[i] else Join(pools))[picks[i]])
  }

  function Swap(a: string, i: nat, j: nat): (r: string)
    requires i < |a| && j < |a|
    ensures |r| == |a|
  {
    a[i := a[j]][j := a[i]]
  }

  /** `random.shuffle`: for each position from the last down to the second, swap it with a drawn
      position at or before it. */
  function Shuffle(a: string, swaps: seq<nat>): (r: string)
    requires |swaps| < |a| && SwapsFit(swaps)
    ensures |r| == |a|
    decreases |swaps|
  {
    if swaps == [] then a
    else
      assert forall x :: 0 <= x < |swaps| - 1 ==> swaps[1..][x] == swaps[x + 1];
      Shuffle(Swap(a, |swaps|, swaps[0]), swaps[1..])
  }

  function Generate(p: PasswordPolicy, picks: seq<nat>, swaps: seq<nat>): string
    requires Acceptable(p) && Drawable(p, picks, swaps)
  {
    Shuffle(Chosen(Pools(p), picks), swaps)
  }

  method ShuffleInPlace(chars: array<char>, swaps: seq<nat>)
    requires |swaps| < chars.Length && SwapsFit(swaps)
    modifies chars
    ensures chars[..] == Shuffle(old(chars[..]), swaps)
  {
    for x := 0 to |swaps|
      invariant SwapsFit(swaps[x..])
      invariant Shuffle(chars[..], swaps[x..]) == Shuffle(old(chars[..]), swaps)
    {
      var i, j := |swaps| - x, swaps[x];
      ghost var before := chars[..];
      assert swaps[x..][0] == j && swaps[x..][1..] == swaps[x + 1..];
      chars[i], chars[j] := chars[j], chars[i];
      assert chars[..] == Swap(before, i, j);
    }
  }

  method GeneratePassword(p: PasswordPolicy, picks: seq<nat>, swaps: seq<nat>) returns (r: Result<string>)
    requires Acceptable(p) ==> Drawable(p, picks, swaps)
    ensures r == if Acceptable(p) then Ok(Generate(p, picks, swaps)) else Err(ValueError)
  {
    PoolFacts(p);
    hide Pools, Join, Disjoint, Strip, Shuffle, SwapsFit;
    var _ :- Validate(p);
    var selected := SelectPools(p);
    var pools := selected.value;
    var combined := Join(pools);
    ghost var chosen := Chosen(pools, picks);
    var chars := new char[p.length];
    for i := 0 to |pools|
      invariant forall j :: 0 <= j < i ==> chars[j] == chosen[j]
    {
      chars[i] := pools[i][picks[i]];
    }
    for i := |pools| to p.length
      invariant forall j :: 0 <= j < i ==> chars[j] == chosen[j]
    {
      chars[i] := combined[picks[i]];
    }
    assert chars[..] == chosen;
    ShuffleInPlace(chars, swaps);
    return Ok(chars[..]);
  }

  /** What the generator promises: the length, no foreign character, one of every category. */
  ghost predicate InLanguage(p: PasswordPolicy, s: string) {
    var pools := Pools(p);
    && |s| == p.length
    && (forall i :: 0 <= i < |s| ==> s[i] in Join(pools))
    && (forall k :: 0 <= k < |pools| ==> HasAny(s, pools[k]))
  }

  ghost predicate HasAny(s: string, pool: string) {
    exists c :: c in multiset(s) && c in pool
  }

  lemma SwapPermutes(a: string, i: nat, j: nat)
    requires i < |a| && j < |a|
    ensures multiset(Swap(a, i, j)) == multiset(a)
  {
  }

  lemma {:induction false} ShufflePermutes(a: string, swaps: seq<nat>)
    requires |swaps| < |a| && SwapsFit(swaps)
    ensures multiset(Shuffle(a, swaps)) == multiset(a)
    decreases |swaps|
  {
    if swaps != [] {
      assert forall x :: 0 <= x < |swaps| - 1 ==> swaps[1..][x] == swaps[x + 1];
      SwapPermutes(a, |swaps|, swaps[0]);
      ShufflePermutes(Swap(a, |swaps|, swaps[0]), swaps[1..]);
    }
  }

  /** Soundness: whatever is drawn, the output is in the policy's language. */
  lemma GenerateSound(p: PasswordPolicy, picks: seq<nat>, swaps: seq<nat>)
    requires Acceptable(p) && Drawable(p, picks, swaps)
    ensures InLanguage(p, Generate(p, picks, swaps))
  {
    hide Pools, Join, Strip, Shuffle;
    PoolFacts(p);
    var pools := Pools(p);
    var a := Chosen(pools, picks);
    var s := Shuffle(a, swaps);
    ShufflePermutes(a, swaps);
    forall i | 0 <= i < |a| ensures a[i] in Join(pools) {
      if i < |pools| {
        assert a[i] in pools[i];
        InJoin(pools, a[i]);
      }
    }
    forall i | 0 <= i < |s| ensures s[i] in Join(pools) {
      assert s[i] in multiset(s);
      assert s[i] in multiset(a);
    }
    forall k | 0 <= k < |pools| ensures HasAny(s, pools[k]) {
      assert a[k] in multiset(a) && a[k] in pools[k];
    }
  }

  lemma FirstAgrees(a: string, t: string)
    requires 0 < |a| == |t| && multiset(a[..1]) == multiset(t[..1]) && a[1..] == t[1..]
    ensures a == t
  {
    assert a[..1] == [a[0]] && t[..1] == [t[0]];
    assert a[0] in multiset(t[..1]);
    assert a == a[..1] + a[1..] && t == t[..1] + t[1..];
  }

  lemma ShuffleFirst(a: string, j: nat, rest: seq<nat>)
    requires |rest| + 1 < |a| && SwapsFit(rest) && j <= |rest| + 1
    ensures SwapsFit([j] + rest) && Shuffle(a, [j] + rest) == Shuffle(Swap(a, |rest| + 1, j), rest)
  {
    assert ([j] + rest)[1..] == rest;
  }

  /** Every rearrangement is some shuffle. */
  lemma {:induction false} ShuffleReaches(a: string, t: string, n: nat) returns (swaps: seq<nat>)
    requires n < |a| == |t| && multiset(a[..n + 1]) == multiset(t[..n + 1]) && a[n + 1..] == t[n + 1..]
    ensures |swaps| == n && SwapsFit(swaps) && Shuffle(a, swaps) == t
    decreases n
  {
    hide Swap;
    if n == 0 {
      swaps := [];
      FirstAgrees(a, t);
    } else {
      assert t[..n + 1][n] == t[n] && t[n] in multiset(t[..n + 1]);
      assert t[n] in a[..n + 1];
      var j :| 0 <= j < n + 1 && a[j] == t[n];
      var a' := Swap(a, n, j);
      SwapStep(a, t, n, j);
      var rest := ShuffleReaches(a', t, n - 1);
      swaps := [j] + rest;
      ShuffleFirst(a, j, rest);
    }
  }

  lemma LastCancels(x: string, y: string, c: char)
    requires multiset(x + [c]) == multiset(y + [c])
    ensures multiset(x) == multiset(y)
  {
    assert multiset(x + [c]) == multiset(x) + multiset{c} && multiset(y + [c]) == multiset(y) + multiset{c};
    assert multiset(x) == multiset(x) + multiset{c} - multiset{c};
    assert multiset(y) == multiset(y) + multiset{c} - multiset{c};
  }

  lemma SwapPrefix(a: string, n: nat, j: nat)
    requires j <= n < |a|
    ensures Swap(a[..n + 1], n, j) == Swap(a, n, j)[..n] + [a[j]]
    ensures Swap(a, n, j)[n..] == [a[j]] + a[n + 1..]
  {
  }

  lemma SwapStep(a: string, t: string, n: nat, j: nat)
    requires 0 < n < |a| == |t| && j <= n && a[j] == t[n]
    requires multiset(a[..n + 1]) == multiset(t[..n + 1]) && a[n + 1..] == t[n + 1..]
    ensures var a' := Swap(a, n, j);
            multiset(a'[..n]) == multiset(t[..n]) && a'[n..] == t[n..]
  {
    SwapPermutes(a[..n + 1], n, j);
    SwapPrefix(a, n, j);
    hide Swap;
    assert t[..n + 1] == t[..n] + [t[n]] && t[n..] == [t[n]] + t[n + 1..];
    LastCancels(Swap(a, n, j)[..n], t[..n], t[n]);
  }

  /** Moves a character of each pool to the front, in the order of the pools. This needs the
      pools to be disjoint: no character can serve two of them. */
  lemma {:induction false} Arrange(s: string, pools: seq<string>, k: nat) returns (a: string)
    requires k <= |pools| <= |s| && Disjoint(pools)
    requires forall i :: 0 <= i < |pools| ==> HasAny(s, pools[i])
    ensures |a| == |s| && multiset(a) == multiset(s) && forall i :: 0 <= i < k ==> a[i] in pools[i]
  {
    if k == 0 {
      a := s;
    } else {
      var b := Arrange(s, pools, k - 1);
      var c :| c in multiset(s) && c in pools[k - 1];
      assert c in multiset(b);
      var q :| 0 <= q < |b| && b[q] == c;
      assert !(q < k - 1);
      a := Swap(b, k - 1, q);
      SwapPermutes(b, k - 1, q);
    }
  }

  /** Indices that choose a given string, position by position. */
  lemma PicksFor(pools: seq<string>, a: string) returns (picks: seq<nat>)
    requires forall i :: 0 <= i < |a| ==> a[i] in if i < |pools| then pools[i] else Join(pools)
    ensures |picks| == |a|
    ensures forall i :: 0 <= i < |picks| ==> picks[i] < |if i < |pools| then pools[i] else Join(pools)|
    ensures Chosen(pools, picks) == a
  {
    hide Join;
    picks := [];
    for n := 0 to |a|
      invariant |picks| == n
      invariant forall i :: 0 <= i < n ==> picks[i] < |if i < |pools| then pools[i] else Join(pools)|
      invariant forall i :: 0 <= i < n ==> (if i < |pools| then pools[i] else Join(pools))[picks[i]] == a[i]
    {
      var pool := if n < |pools| then pools[n] else Join(pools);
      var j :| 0 <= j < |pool| && pool[j] == a[n];
      picks := picks + [j];
    }
  }

  /** Completeness: every string of the policy's language is the output of some draws. */
  lemma GenerateComplete(p: PasswordPolicy, s: string) returns (picks: seq<nat>, swaps: seq<nat>)
    requires Acceptable(p) && InLanguage(p, s)
    ensures Drawable(p, picks, swaps) && Generate(p, picks, swaps) == s
  {
    hide Pools, Join, Strip, Shuffle, HasAny, Disjoint;
    PoolFacts(p);
    var pools := Pools(p);
    var a := Arrange(s, pools, |pools|);
    forall i | 0 <= i < |a| ensures a[i] in Join(pools) {
      assert a[i] in multiset(a);
      assert a[i] in multiset(s);
    }
    picks := PicksFor(pools, a);
    assert a[..|a|] == a && s[..|s|] == s;
    swaps := ShuffleReaches(a, s, |a| - 1);
  }

  /** The policy's promise, character by character: the length, only allowed characters, and one of
      every enabled category. */
  ghost predicate Conforms(p: PasswordPolicy, s: string) {
    && |s| == p.length
    && (forall i :: 0 <= i < |s| ==> Allowed(p, s[i]))
    && (p.useUpper ==> Has(s, 0)) && (p.useLower ==> Has(s, 1)) && (p.useDigits ==> Has(s, 2)) && (p.useSymbols ==> Has(s, 3))
  }

  ghost predicate Has(s: string, k: int) {
    exists i :: 0 <= i < |s| && InCategory(s[i], k)
  }

  lemma HasPool(p: PasswordPolicy, s: string, k: nat)
    requires k < |Kinds(p)| == |Pools(p)| && forall i :: 0 <= i < |s| ==> Allowed(p, s[i])
    ensures HasAny(s, Pools(p)[k]) <==> Has(s, Kinds(p)[k])
  {
    hide Kinds, Pools, InCategory;
    if i :| 0 <= i < |s| && InCategory(s[i], Kinds(p)[k]) {
      InPool(p, k, s[i]);
      assert s[i] in multiset(s);
    }
    if HasAny(s, Pools(p)[k]) {
      var c :| c in multiset(s) && c in Pools(p)[k];
      InPool(p, k, c);
      var i :| 0 <= i < |s| && s[i] == c;
    }
  }

  lemma ConformsIffInLanguage(p: PasswordPolicy, s: string)
    ensures Conforms(p, s) <==> InLanguage(p, s)
  {
    KindsAre(p);
    AllowedInPools(p);
    hide Kinds, Pools, Join, Allowed, Has, HasAny;
    if forall i :: 0 <= i < |s| ==> Allowed(p, s[i]) {
      forall k | 0 <= k < |Kinds(p)| ensures HasAny(s, Pools(p)[k]) <==> Has(s, Kinds(p)[k]) {
        HasPool(p, s, k);
      }
      if Conforms(p, s) {
        forall k | 0 <= k < |Pools(p)| ensures HasAny(s, Pools(p)[k]) {
          assert Kinds(p)[k] in Kinds(p);
        }
      }
      if InLanguage(p, s) {
        forall j | j in Kinds(p) ensures Has(s, j) {
          var k :| 0 <= k < |Kinds(p)| && Kinds(p)[k] == j;
        }
      }
    }
  }

  /** The strings the generator can output are exactly those the policy promises. */
  lemma OutputLanguage(p: PasswordPolicy, s: string)
    requires Acceptable(p)
    ensures Conforms(p, s) <==>
            exists picks: seq<nat>, swaps: seq<nat> :: Drawable(p, picks, swaps) && Generate(p, picks, swaps) == s
  {
    ConformsIffInLanguage(p, s);
    hide Conforms, InLanguage, Generate, Drawable, Acceptable;
    if InLanguage(p, s) {
      var picks, swaps := GenerateComplete(p, s);
    }
    forall picks: seq<nat>, swaps: seq<nat> | Drawable(p, picks, swaps) && Generate(p, picks, swaps) == s
      ensures InLanguage(p, s)
    {
      GenerateSound(p, picks, swaps);
    }
  }
}
