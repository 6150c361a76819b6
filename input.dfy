/**
 * Input sampler: the held-key set, the normalisation of key names the
 * key handlers apply, and the velocity sampled from the set each tick.
 */
module Input {
  import opened Config

  /** Names of the keys currently held, already lower-cased. */
  type KeySet = set<string>

  predicate IsUpper(c: char) { 'A' <= c <= 'Z' }

  /** ASCII lower-casing of one character. */
  function LowerChar(c: char): (r: char)
    ensures !IsUpper(r)
    ensures r == c <==> !IsUpper(c)
  {
    if IsUpper(c) then (c as int + 32) as char else c
  }

  /** The normalisation `e.key.toLowerCase()` applied to every key name. */
  function Lower(s: string): (r: string)
    ensures |r| == |s|
    ensures forall i :: 0 <= i < |r| ==> !IsUpper(r[i])
    ensures forall i :: 0 <= i < |s| && !IsUpper(s[i]) ==> r[i] == s[i]
  {
    seq(|s|, i requires 0 <= i < |s| => LowerChar(s[i]))
  }

  /** Two characters that are equal or differ only in ASCII case. */
  predicate CaseVariants(a: char, b: char)
  {
    a == b
    || (IsUpper(a) && b as int == a as int + 32)
    || (IsUpper(b) && a as int == b as int + 32)
  }

  predicate SameIgnoringCase(s: string, t: string)
  {
    |s| == |t| && forall i :: 0 <= i < |s| ==> CaseVariants(s[i], t[i])
  }

  /** Lower-casing an already lower-cased name changes nothing. */
  lemma LowerIdempotent(s: string)
    ensures Lower(Lower(s)) == Lower(s)
  {
    assert forall i :: 0 <= i < |s| ==> Lower(Lower(s))[i] == Lower(s)[i];
  }

  /**
   * Two key names are stored as the same entry of the key set exactly when
   * they differ only in case, so releasing "W" removes a held "w".
   */
  lemma {:induction false} SameKeyIffSameIgnoringCase(s: string, t: string)
    ensures Lower(s) == Lower(t) <==> SameIgnoringCase(s, t)
  {
    if Lower(s) == Lower(t) {
      forall i | 0 <= i < |s| ensures CaseVariants(s[i], t[i]) {
        assert LowerChar(s[i]) == Lower(s)[i] == Lower(t)[i] == LowerChar(t[i]);
      }
    }
    if SameIgnoringCase(s, t) {
      forall i | 0 <= i < |s| ensures Lower(s)[i] == Lower(t)[i] {
        assert CaseVariants(s[i], t[i]);
      }
    }
  }

  predicate HoldsUp(keys: KeySet) { "arrowup" in keys || "w" in keys }
  predicate HoldsDown(keys: KeySet) { "arrowdown" in keys || "s" in keys }
  predicate HoldsLeft(keys: KeySet) { "arrowleft" in keys || "a" in keys }
  predicate HoldsRight(keys: KeySet) { "arrowright" in keys || "d" in keys }

  /**
   * The velocity sampled from the held keys: each axis starts at 0, is
   * lowered by MoveSpeed when either binding of the negative direction is
   * held and raised by MoveSpeed when either binding of the positive one is.
   */
  function Velocity(keys: KeySet): (v: Vec)
    ensures v.x == -MoveSpeed <==> HoldsLeft(keys) && !HoldsRight(keys)
    ensures v.x == MoveSpeed <==> HoldsRight(keys) && !HoldsLeft(keys)
    ensures v.x == 0 <==> (HoldsLeft(keys) <==> HoldsRight(keys))
    ensures v.y == -MoveSpeed <==> HoldsUp(keys) && !HoldsDown(keys)
    ensures v.y == MoveSpeed <==> HoldsDown(keys) && !HoldsUp(keys)
    ensures v.y == 0 <==> (HoldsUp(keys) <==> HoldsDown(keys))
  {
    var dy := (if HoldsUp(keys) then -MoveSpeed else 0) + (if HoldsDown(keys) then MoveSpeed else 0);
    var dx := (if HoldsLeft(keys) then -MoveSpeed else 0) + (if HoldsRight(keys) then MoveSpeed else 0);
    Vec(dx, dy)
  }
}
