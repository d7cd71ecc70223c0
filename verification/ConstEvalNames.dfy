/** Names of const-eval functions: construction, parsing, and the index offsets that keep
    new names apart from existing ones. */
module ConstEvalNames {
  import opened Common

  const INFIX: string := "_const_eval_"

  /** Indices are machine words. */
  const WORD_RANGE: nat := 0x1_0000_0000_0000_0000

  // ----- Decimal numbers -----

  function Digit(d: nat): (c: char)
    requires d < 10
    ensures '0' <= c <= '9' && DigitValue(c) == d
  {
    '0' + d as char
  }

  function DigitValue(c: char): nat
    requires '0' <= c <= '9'
  {
    (c - '0') as nat
  }

  predicate AllDigits(s: string) {
    forall i :: 0 <= i < |s| ==> '0' <= s[i] <= '9'
  }

  /** std::to_string. */
  function ToDecimal(n: nat): (s: string)
    ensures s != [] && AllDigits(s)
  {
    if n < 10 then [Digit(n)] else ToDecimal(n / 10) + [Digit(n % 10)]
  }

  function DecimalValue(s: string): nat
    requires AllDigits(s)
  {
    if s == [] then 0 else DecimalValue(s[..|s| - 1]) * 10 + DigitValue(s[|s| - 1])
  }

  lemma {:induction false} DecimalRoundTrip(n: nat)
    ensures DecimalValue(ToDecimal(n)) == n
  {
    var s := ToDecimal(n);
    if n < 10 {
      assert s[..|s| - 1] == [];
    } else {
      DecimalRoundTrip(n / 10);
      assert s[..|s| - 1] == ToDecimal(n / 10);
    }
  }

  /** StringRef::getAsInteger(10, uint64): digits only, and no overflow. */
  function ParseIndex(s: string): Option<nat> {
    if s == [] || !AllDigits(s) then None
    else if DecimalValue(s) < WORD_RANGE then Some(DecimalValue(s))
    else None
  }

  // ----- Names -----

  predicate OccursAt(s: string, t: string, p: nat) {
    p + |t| <= |s| && s[p..p + |t|] == t
  }

  /** StringRef::rfind. */
  function LastOccurrence(s: string, t: string): (r: Option<nat>)
    ensures r.Some? ==> OccursAt(s, t, r.value)
    ensures forall p: nat :: OccursAt(s, t, p) ==> r.Some? && p <= r.value
  {
    if |t| > |s| then None else LastOccurrenceUpTo(s, t, |s| - |t|)
  }

  function LastOccurrenceUpTo(s: string, t: string, from: nat): (r: Option<nat>)
    requires from + |t| <= |s|
    ensures r.Some? ==> OccursAt(s, t, r.value) && r.value <= from
    ensures forall p: nat :: p <= from && OccursAt(s, t, p) ==> r.Some? && p <= r.value
  {
    if OccursAt(s, t, from) then Some(from)
    else if from == 0 then None
    else LastOccurrenceUpTo(s, t, from - 1)
  }

  function Construct(originalName: string, subgraphIdx: nat): string {
    originalName + INFIX + ToDecimal(subgraphIdx)
  }

  function Parse(name: string): Option<(string, nat)> {
    var pos := LastOccurrence(name, INFIX);
    if pos.None? then None
    else
      var originalName, indexStr := name[..pos.value], name[pos.value + |INFIX|..];
      var index := ParseIndex(indexStr);
      if originalName == [] || index.None? then None else Some((originalName, index.value))
  }

  /** The infix ends in a character that is no digit, so it cannot reach into the index. */
  lemma LastInfix(name: string, digits: string)
    requires AllDigits(digits)
    ensures LastOccurrence(name + INFIX + digits, INFIX) == Some(|name|)
  {
    var s := name + INFIX + digits;
    assert s[|name|..|name| + |INFIX|] == INFIX;
    assert OccursAt(s, INFIX, |name|);
    forall p: nat | p > |name| ensures !OccursAt(s, INFIX, p) {
      if p + |INFIX| <= |s| {
        assert s[p..p + |INFIX|][11] == s[p + 11] == digits[p + 11 - |name| - |INFIX|];
        assert INFIX[11] == '_';
      }
    }
  }

  /** Parsing undoes construction, also for names that contain the infix themselves. */
  lemma ParseConstruct(name: string, i: nat)
    requires name != [] && i < WORD_RANGE
    ensures Parse(Construct(name, i)) == Some((name, i))
  {
    var s := Construct(name, i);
    LastInfix(name, ToDecimal(i));
    DecimalRoundTrip(i);
    assert s[..|name|] == name;
    assert s[|name| + |INFIX|..] == ToDecimal(i);
  }

  /** Constructed names determine the original name and the index. */
  lemma ConstructInjective(a: string, i: nat, b: string, j: nat)
    requires a != [] && b != [] && i < WORD_RANGE && j < WORD_RANGE
    requires Construct(a, i) == Construct(b, j)
    ensures a == b && i == j
  {
    ParseConstruct(a, i);
    ParseConstruct(b, j);
  }

  // ----- Offsets -----

  /** A function of the module, and whether it is marked const-eval. */
  datatype Symbol = Symbol(name: string, constEval: bool)

  function Names(symbols: seq<Symbol>): set<string> {
    set s | s in symbols :: s.name
  }

  /** The function and index an existing const-eval function was made for, if its name says so
      and that function is still in the module. */
  function Claim(s: Symbol, declared: set<string>): Option<(string, nat)> {
    if !s.constEval then None
    else
      var parsed := Parse(s.name);
      if parsed.Some? && parsed.value.0 in declared then parsed else None
  }

  function Claims(symbols: seq<Symbol>, declared: set<string>): (claims: seq<(string, nat)>)
    ensures forall s :: s in symbols && Claim(s, declared).Some? ==> Claim(s, declared).value in claims
    ensures forall c :: c in claims ==> exists s :: s in symbols && Claim(s, declared) == Some(c)
  {
    if symbols == [] then []
    else
      var n := |symbols| - 1;
      assert symbols == symbols[..n] + [symbols[n]];
      var c := Claim(symbols[n], declared);
      Claims(symbols[..n], declared) + (if c.Some? then [c.value] else [])
  }

  /** The largest claimed index of every function that has one. */
  ghost predicate Largest(maxima: map<string, nat>, claims: seq<(string, nat)>) {
    && (forall c :: c in claims ==> c.0 in maxima && c.1 <= maxima[c.0])
    && (forall f :: f in maxima ==> (f, maxima[f]) in claims)
  }

  method MaxSubgraphIndices(symbols: seq<Symbol>) returns (maxima: map<string, nat>)
    ensures Largest(maxima, Claims(symbols, Names(symbols)))
  {
    maxima := map[];
    var declared := Names(symbols);
    var n := 0;
    while n < |symbols|
      invariant 0 <= n <= |symbols|
      invariant Largest(maxima, Claims(symbols[..n], declared))
    {
      assert symbols[..n + 1][..n] == symbols[..n];
      var claim := Claim(symbols[n], declared);
      if claim.Some? {
        var (f, i) := claim.value;
        LargestStep(maxima, Claims(symbols[..n], declared), f, i);
        if f !in maxima || maxima[f] < i {
          maxima := maxima[f := i];
        }
      }
      n := n + 1;
    }
    assert symbols[..|symbols|] == symbols;
  }

  lemma LargestStep(maxima: map<string, nat>, claims: seq<(string, nat)>, f: string, i: nat)
    requires Largest(maxima, claims)
    ensures Largest(if f !in maxima || maxima[f] < i then maxima[f := i] else maxima, claims + [(f, i)])
  {
  }

  /** The index of the k-th new function above a largest existing one, in machine arithmetic. */
  function NewIndex(largest: nat, k: nat): nat {
    (k + (largest + 1) % WORD_RANGE) % WORD_RANGE
  }

  /** The name of the k-th new const-eval function of `f`: offset by the largest existing
      index plus one, if there is one. */
  function NewName(maxima: map<string, nat>, f: string, k: nat): string {
    Construct(f, if f in maxima then NewIndex(maxima[f], k) else k % WORD_RANGE)
  }

  /** The first `count` new names of `f` fit above its existing indices. */
  predicate RoomFor(maxima: map<string, nat>, f: string, count: nat) {
    if f in maxima then maxima[f] + count < WORD_RANGE else count <= WORD_RANGE
  }

  /** With room, indices do not wrap. */
  lemma NewNameIndex(maxima: map<string, nat>, f: string, k: nat, count: nat) returns (i: nat)
    requires k < count && RoomFor(maxima, f, count)
    ensures i == (if f in maxima then maxima[f] + 1 + k else k) < WORD_RANGE
    ensures NewName(maxima, f, k) == Construct(f, i)
  {
    i := if f in maxima then maxima[f] + 1 + k else k;
    assert f in maxima ==> NewIndex(maxima[f], k) == i;
  }

  /** With room, no new name is that of an existing const-eval function. */
  lemma NewNameIsFresh(maxima: map<string, nat>, symbols: seq<Symbol>, f: string, count: nat, k: nat, s: Symbol)
    requires Largest(maxima, Claims(symbols, Names(symbols))) && f != [] && f in Names(symbols)
    requires k < count && RoomFor(maxima, f, count)
    requires s in symbols && s.constEval
    ensures NewName(maxima, f, k) != s.name
  {
    var i := NewNameIndex(maxima, f, k, count);
    UnclaimedIndex(maxima, Claims(symbols, Names(symbols)), f, i);
    UnclaimedName(symbols, s, f, i);
  }

  lemma UnclaimedIndex(maxima: map<string, nat>, claims: seq<(string, nat)>, f: string, i: nat)
    requires Largest(maxima, claims) && (f in maxima ==> maxima[f] < i)
    ensures (f, i) !in claims
  {
  }

  lemma UnclaimedName(symbols: seq<Symbol>, s: Symbol, f: string, i: nat)
    requires s in symbols && s.constEval && f != [] && f in Names(symbols) && i < WORD_RANGE
    requires (f, i) !in Claims(symbols, Names(symbols))
    ensures s.name != Construct(f, i)
  {
    ParseConstruct(f, i);
    if s.name == Construct(f, i) {
      ClaimedName(s, Names(symbols), f, i);
    }
  }

  lemma ClaimedName(s: Symbol, declared: set<string>, f: string, i: nat)
    requires s.constEval && Parse(s.name) == Some((f, i)) && f in declared
    ensures Claim(s, declared) == Some((f, i))
  {
  }

  /** New names differ from each other, within and across functions. */
  lemma NewNamesDiffer(maxima: map<string, nat>, f: string, k: nat, m: nat, g: string, l: nat, n: nat)
    requires f != [] && g != [] && k < m && l < n
    requires RoomFor(maxima, f, m) && RoomFor(maxima, g, n)
    requires f != g || k != l
    ensures NewName(maxima, f, k) != NewName(maxima, g, l)
  {
    var i := NewNameIndex(maxima, f, k, m);
    var j := NewNameIndex(maxima, g, l, n);
    if Construct(f, i) == Construct(g, j) {
      ConstructInjective(f, i, g, j);
    }
  }

  // ----- Exactly when new names are free -----

  /** The first index above all those claimed for `f`. */
  function FirstFree(claims: seq<(string, nat)>, f: string): (r: nat)
    ensures forall c :: c in claims && c.0 == f ==> c.1 < r
    ensures 0 < r ==> (f, r - 1) in claims
  {
    if claims == [] then 0
    else
      var n := |claims| - 1;
      var before := FirstFree(claims[..n], f);
      assert claims == claims[..n] + [claims[n]];
      if claims[n].0 == f && before <= claims[n].1 then claims[n].1 + 1 else before
  }

  /** The k-th name above those claimed for `f`, in unbounded arithmetic. */
  function NthName(claims: seq<(string, nat)>, f: string, k: nat): string {
    Construct(f, FirstFree(claims, f) + k)
  }

  /** The largest index recorded plus one is the first free index. */
  lemma OffsetIsFirstFree(maxima: map<string, nat>, claims: seq<(string, nat)>, f: string)
    requires Largest(maxima, claims)
    ensures FirstFree(claims, f) == if f in maxima then maxima[f] + 1 else 0
  {
    if f in maxima { assert (f, maxima[f]) in claims; }
    var r := FirstFree(claims, f);
    if 0 < r { assert (f, r - 1) in claims && (f, r - 1).0 in maxima; }
  }

  lemma NewNameIsNth(maxima: map<string, nat>, claims: seq<(string, nat)>, f: string, k: nat, count: nat)
    requires Largest(maxima, claims) && k < count && RoomFor(maxima, f, count)
    ensures NewName(maxima, f, k) == NthName(claims, f, k)
  {
    OffsetIsFirstFree(maxima, claims, f);
    var i := NewNameIndex(maxima, f, k, count);
  }

  /** No name of the module is among the next `count` names of `f`. */
  ghost predicate NewNamesFree(maxima: map<string, nat>, symbols: seq<Symbol>, f: string, count: nat) {
    forall k :: 0 <= k < count ==> NewName(maxima, f, k) !in Names(symbols)
  }

  /** No ordinary function of the module has one of the `count` names above those claimed. */
  ghost predicate OrdinaryNamesAvoid(symbols: seq<Symbol>, f: string, count: nat) {
    forall s, k :: s in symbols && !s.constEval && 0 <= k < count
      ==> s.name != NthName(Claims(symbols, Names(symbols)), f, k)
  }

  /** With room below the word's end, the next `count` names are free exactly when no ordinary
      function carries one of them: const-eval functions never do. */
  lemma NewNamesFreeExactlyWhen(maxima: map<string, nat>, symbols: seq<Symbol>, f: string, count: nat)
    requires Largest(maxima, Claims(symbols, Names(symbols))) && f != [] && f in Names(symbols)
    requires RoomFor(maxima, f, count)
    ensures NewNamesFree(maxima, symbols, f, count) <==> OrdinaryNamesAvoid(symbols, f, count)
  {
    var claims := Claims(symbols, Names(symbols));
    forall k | 0 <= k < count ensures NewName(maxima, f, k) == NthName(claims, f, k) {
      NewNameIsNth(maxima, claims, f, k, count);
    }
    forall s, k | s in symbols && s.constEval && 0 <= k < count ensures s.name != NewName(maxima, f, k) {
      NewNameIsFresh(maxima, symbols, f, count, k, s);
    }
    if NewNamesFree(maxima, symbols, f, count) {
      forall s, k | s in symbols && !s.constEval && 0 <= k < count ensures s.name != NthName(claims, f, k) {
        assert s.name in Names(symbols) && NewName(maxima, f, k) !in Names(symbols);
      }
    }
  }

  ghost predicate IsLargest(existing: set<nat>, largest: nat) {
    largest in existing && forall i :: i in existing ==> i <= largest
  }

  ghost predicate Disjoint(existing: set<nat>, largest: nat, count: nat) {
    forall k :: 0 <= k < count ==> NewIndex(largest, k) !in existing
  }

  /** Whatever the other existing indices are, `count` new ones avoid them exactly when they
      fit below the end of the machine word. */
  lemma FreshExactlyWhen(largest: nat, count: nat)
    requires largest < WORD_RANGE && 0 < count
    ensures (forall existing: set<nat> :: IsLargest(existing, largest) ==> Disjoint(existing, largest, count))
        <==> largest + count < WORD_RANGE
  {
    if largest + count >= WORD_RANGE {
      // The index that wraps to zero.
      var existing: set<nat> := {0, largest};
      var k := WORD_RANGE - 1 - largest;
      assert IsLargest(existing, largest);
      assert NewIndex(largest, k) == 0;
      assert !Disjoint(existing, largest, count);
    }
  }

  /** Only const-eval functions are counted: an ordinary function can hold the new name. */
  lemma OrdinaryNameCanCollide()
    ensures var symbols := [Symbol("f", false), Symbol("f_const_eval_0", false)];
      Largest(map[], Claims(symbols, Names(symbols))) && NewName(map[], "f", 0) == symbols[1].name
  {
    var symbols := [Symbol("f", false), Symbol("f_const_eval_0", false)];
    assert ToDecimal(0) == "0";
    assert "f" + INFIX + "0" == "f_const_eval_0";
    NoClaims(symbols, Names(symbols));
  }

  lemma {:induction false} NoClaims(symbols: seq<Symbol>, declared: set<string>)
    requires forall s :: s in symbols ==> !s.constEval
    ensures Claims(symbols, declared) == []
  {
    if symbols != [] { NoClaims(symbols[..|symbols| - 1], declared); }
  }
}
