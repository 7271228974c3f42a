/** Directory entry names: the order `os.ReadDir` sorts by, the hashes the server
    accepts, the temporary names `Put` creates, and the finite universe of hashes
    that bounds every walk over a directory. */
module Names {

  const MAX_HASH_LENGTH: nat := 128
  const TEMP_MARK := ".tmp-"

  // ---------------------------------------------------------------- order

  /** Go's `a < b` on strings. */
  predicate Below(a: string, b: string) {
    b != [] && (a == [] || a[0] < b[0] || (a[0] == b[0] && Below(a[1..], b[1..])))
  }

  /** The first difference decides, and a proper prefix comes first. */
  lemma {:induction false} FirstDifferenceDecides(common: string, a: string, b: string)
    requires a != "" && b != "" && a[0] < b[0]
    ensures Below(common + a, common + b)
    ensures Below(common, common + b)
  {
    if common == "" {
      assert common + a == a && common + b == b;
    } else {
      FirstDifferenceDecides(common[1..], a, b);
      assert (common + a)[1..] == common[1..] + a && (common + b)[1..] == common[1..] + b;
    }
  }

  lemma {:induction false} BelowIrreflexive(a: string)
    ensures !Below(a, a)
  {
    if a != [] {
      BelowIrreflexive(a[1..]);
    }
  }

  lemma {:induction false} BelowTransitive(a: string, b: string, c: string)
    requires Below(a, b) && Below(b, c)
    ensures Below(a, c)
  {
    if a != [] && a[0] == b[0] == c[0] {
      BelowTransitive(a[1..], b[1..], c[1..]);
    }
  }

  lemma {:induction false} BelowTotal(a: string, b: string)
    ensures Below(a, b) || a == b || Below(b, a)
  {
    if a != [] && b != [] && a[0] == b[0] {
      BelowTotal(a[1..], b[1..]);
      assert a == [a[0]] + a[1..] && b == [b[0]] + b[1..];
    }
  }

  lemma BelowAsymmetric(a: string, b: string)
    requires Below(a, b)
    ensures !Below(b, a) && a != b
  {
    BelowIrreflexive(a);
    if Below(b, a) {
      BelowTransitive(a, b, a);
    }
  }

  lemma NotAfterThenBelow(a: string, cursor: string, b: string)
    requires !Below(cursor, a) && Below(cursor, b)
    ensures Below(a, b)
  {
    BelowTotal(cursor, a);
    if a != cursor {
      BelowTransitive(a, cursor, b);
    }
  }

  /** `Below` is a strict total order, in the form quantified proofs use it. */
  lemma BelowIsStrictTotal()
    ensures forall a :: !Below(a, a)
    ensures forall a, b, c :: Below(a, b) && Below(b, c) ==> Below(a, c)
    ensures forall a, b :: Below(a, b) || a == b || Below(b, a)
  {
    forall a ensures !Below(a, a) { BelowIrreflexive(a); }
    forall a, b, c | Below(a, b) && Below(b, c) ensures Below(a, c) { BelowTransitive(a, b, c); }
    forall a, b ensures Below(a, b) || a == b || Below(b, a) { BelowTotal(a, b); }
  }

  ghost predicate Ascending(names: seq<string>) {
    forall i, j :: 0 <= i < j < |names| ==> Below(names[i], names[j])
  }

  lemma EmptyOrMember(names: seq<string>)
    ensures names == [] || exists n :: n in names
  {
    if names != [] { assert names[0] in names; }
  }

  /** An ascending sequence is determined by the names in it. */
  lemma {:induction false} AscendingUnique(a: seq<string>, b: seq<string>)
    requires Ascending(a) && Ascending(b)
    requires forall n :: n in a <==> n in b
    ensures a == b
  {
    BelowIsStrictTotal();
    if a == [] {
      EmptyOrMember(b);
    } else {
      assert a[0] in b;
      assert b[0] in a;
      assert a[0] == b[0];
      assert a == [a[0]] + a[1..] && b == [b[0]] + b[1..];
      forall n ensures n in a[1..] <==> n in b[1..] {
        assert n in a <==> n in b;
        assert n in a <==> n == a[0] || n in a[1..];
        assert n in b <==> n == b[0] || n in b[1..];
        if n in a[1..] { var i :| 0 <= i < |a| - 1 && a[1..][i] == n; assert Below(a[0], a[i + 1]); }
        if n in b[1..] { var i :| 0 <= i < |b| - 1 && b[1..][i] == n; assert Below(b[0], b[i + 1]); }
      }
      AscendingUnique(a[1..], b[1..]);
    }
  }

  // ---------------------------------------------------------------- hashes and temporary names

  predicate HashChar(c: char) {
    'a' <= c <= 'z' || 'A' <= c <= 'Z' || '0' <= c <= '9' || c == '_' || c == '-'
  }

  predicate ValidHash(hash: string) {
    1 <= |hash| <= MAX_HASH_LENGTH && forall i :: 0 <= i < |hash| ==> HashChar(hash[i])
  }

  /** What the pattern lets through: letters, digits, "_" and "-", from 1 to 128 of them; and no
      separator, dot or escape. */
  lemma ValidHashExamples(hash: string)
    ensures ValidHash("azAZ09_-") && !ValidHash("")
    ensures |hash| > 128 ==> !ValidHash(hash)
    ensures 1 <= |hash| <= 128 && (forall i :: 0 <= i < |hash| ==> hash[i] in "azAZ09_-") ==> ValidHash(hash)
    ensures '/' in hash || '.' in hash || '%' in hash || ' ' in hash ==> !ValidHash(hash)
  {
    assert !HashChar('/') && !HashChar('.') && !HashChar('%') && !HashChar(' ');
  }

  predicate OccursAt(s: string, sub: string, i: nat) {
    i + |sub| <= |s| && s[i..i + |sub|] == sub
  }

  predicate Contains(s: string, sub: string) {
    exists i :: 0 <= i <= |s| - |sub| && OccursAt(s, sub, i)
  }

  /** `strings.Contains(name, ".tmp-")`, the test `List` skips names by. */
  predicate IsTemp(name: string) {
    Contains(name, TEMP_MARK)
  }

  /** The name `os.CreateTemp(dir, hash + ".tmp-*")` picks for a random suffix. */
  function TempName(hash: string, suffix: string): string {
    hash + TEMP_MARK + suffix
  }

  /** Temporary names are skipped by `List` and can never be mistaken for a hash. */
  lemma TempNameIsTemp(hash: string, suffix: string)
    ensures IsTemp(TempName(hash, suffix))
    ensures !ValidHash(TempName(hash, suffix))
  {
    var name := TempName(hash, suffix);
    assert OccursAt(name, TEMP_MARK, |hash|);
    assert name[|hash|] == '.';
    assert !HashChar(name[|hash|]);
  }

  lemma TempHasDot(name: string)
    requires IsTemp(name)
    ensures exists i :: 0 <= i < |name| && name[i] == '.'
  {
    var i :| 0 <= i <= |name| - |TEMP_MARK| && OccursAt(name, TEMP_MARK, i);
    assert name[i] == name[i..i + |TEMP_MARK|][0];
  }

  lemma ValidHashIsNotTemp(hash: string)
    requires ValidHash(hash)
    ensures !IsTemp(hash)
  {
    if IsTemp(hash) {
      TempHasDot(hash);
    }
  }

  // ---------------------------------------------------------------- the finite universe of hashes

  /** Every string of at most `n` hash characters. */
  ghost function StringsUpTo(n: nat): set<string> {
    if n == 0 then {[]}
    else {[]} + set c: char, s: string | s in StringsUpTo(n - 1) && HashChar(c) :: [c] + s
  }

  lemma {:induction false} StringsUpToComplete(n: nat, s: string)
    requires |s| <= n && forall i :: 0 <= i < |s| ==> HashChar(s[i])
    ensures s in StringsUpTo(n)
  {
    if s != [] {
      StringsUpToComplete(n - 1, s[1..]);
      assert s == [s[0]] + s[1..];
    }
  }

  ghost predicate HoldsAllHashes(universe: set<string>) {
    forall h :: ValidHash(h) ==> h in universe
  }

  lemma FinitelyManyHashes()
    ensures exists universe: set<string> :: HoldsAllHashes(universe)
  {
    var n: nat :| n == MAX_HASH_LENGTH;
    forall h | ValidHash(h) ensures h in StringsUpTo(n) {
      StringsUpToComplete(n, h);
    }
    assert HoldsAllHashes(StringsUpTo(n));
  }

  /** Some finite set that holds every hash the server accepts. */
  ghost function Universe(): (universe: set<string>)
    ensures HoldsAllHashes(universe)
  {
    FinitelyManyHashes();
    var universe :| HoldsAllHashes(universe);
    universe
  }

  ghost function HashesAfter(cursor: string): set<string> {
    set h | h in Universe() && Below(cursor, h)
  }

  /** How many hashes a cursor still has in front of it: the measure that bounds a walk. */
  ghost function Remaining(cursor: string): nat {
    |HashesAfter(cursor)|
  }

  lemma SmallerSet<T>(a: set<T>, b: set<T>)
    requires a < b
    ensures |a| < |b|
  {
    assert b == a + (b - a);
    assert |b| == |a| + |b - a|;
    assert b - a != {};
  }

  lemma RemainingDecreases(cursor: string, next: string)
    requires Below(cursor, next) && ValidHash(next)
    ensures Remaining(next) < Remaining(cursor)
  {
    BelowIrreflexive(next);
    forall h | h in HashesAfter(next) ensures h in HashesAfter(cursor) {
      BelowTransitive(cursor, next, h);
    }
    assert next in HashesAfter(cursor) && next !in HashesAfter(next);
    SmallerSet(HashesAfter(next), HashesAfter(cursor));
  }
}
