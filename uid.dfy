/** `generateUid`: a public account id of six capital letters followed by
    four decimal digits. `Math.random` is replaced by an index oracle: a
    `Draw` lists the values `Math.floor(Math.random() * n)` takes, one per
    character, in the order the two loops ask for them. */
module Uid {
  import opened Text

  const Letters := "ABCDEFGHIJKLMNOPQRSTUVWXYZ"
  const Numbers := "0123456789"

  /** The random indices of one call: six into `Letters`, four into `Numbers`. */
  datatype Draw = Draw(letters: seq<nat>, digits: seq<nat>)

  /** Indices `Math.floor(Math.random() * n)` can produce for one call. */
  predicate DrawInRange(d: Draw) {
    && |d.letters| == 6 && |d.digits| == 4
    && (forall i :: 0 <= i < 6 ==> d.letters[i] < |Letters|)
    && (forall i :: 0 <= i < 4 ==> d.digits[i] < |Numbers|)
  }

  predicate IsLetter(c: char) {
    'A' <= c <= 'Z'
  }

  /** The documented format: 6 letters, then 4 digits. */
  predicate WellFormedUid(uid: string) {
    && |uid| == 10
    && (forall i :: 0 <= i < 6 ==> IsLetter(uid[i]))
    && (forall i :: 6 <= i < 10 ==> IsDigit(uid[i]))
  }

  /** The characters an alphabet yields for a run of indices, appended one
      at a time. */
  function Spell(alphabet: string, picks: seq<nat>): (s: string)
    requires forall i :: 0 <= i < |picks| ==> picks[i] < |alphabet|
    ensures |s| == |picks|
    ensures forall i :: 0 <= i < |picks| ==> s[i] == alphabet[picks[i]]
  {
    if picks == [] then []
    else Spell(alphabet, picks[..|picks| - 1]) + [alphabet[picks[|picks| - 1]]]
  }

  /** The UID one call returns for a draw. */
  function UidOf(d: Draw): string
    requires DrawInRange(d)
  {
    Spell(Letters, d.letters) + Spell(Numbers, d.digits)
  }

  /** The i-th letter of the alphabet literal. */
  lemma LetterAt(k: nat)
    requires k < |Letters|
    ensures IsLetter(Letters[k]) && Letters[k] as int == 'A' as int + k
  {
  }

  /** The i-th digit of the digits literal. */
  lemma NumberAt(k: nat)
    requires k < |Numbers|
    ensures IsDigit(Numbers[k]) && Numbers[k] as int == '0' as int + k
  {
  }

  /** `generateUid` with its two loops. */
  method GenerateUid(d: Draw) returns (uid: string)
    requires DrawInRange(d)
    ensures uid == UidOf(d)
  {
    var letterPart := "";
    for i := 0 to 6
      invariant letterPart == Spell(Letters, d.letters[..i])
    {
      assert d.letters[..i + 1][..i] == d.letters[..i];
      letterPart := letterPart + [Letters[d.letters[i]]];
    }
    var numberPart := "";
    for i := 0 to 4
      invariant numberPart == Spell(Numbers, d.digits[..i])
    {
      assert d.digits[..i + 1][..i] == d.digits[..i];
      numberPart := numberPart + [Numbers[d.digits[i]]];
    }
    assert d.letters[..6] == d.letters && d.digits[..4] == d.digits;
    uid := letterPart + numberPart;
  }

  /** Every generated UID has the documented format, letters first. */
  lemma {:induction false} UidWellFormed(d: Draw)
    requires DrawInRange(d)
    ensures WellFormedUid(UidOf(d))
    ensures UidOf(d)[..6] == Spell(Letters, d.letters) && UidOf(d)[6..] == Spell(Numbers, d.digits)
  {
    var uid := UidOf(d);
    forall i | 0 <= i < 6 ensures IsLetter(uid[i]) {
      LetterAt(d.letters[i]);
    }
    forall i | 6 <= i < 10 ensures IsDigit(uid[i]) {
      NumberAt(d.digits[i - 6]);
    }
  }

  /** Different draws give different UIDs: a collision in the UID table
      means the oracle repeated itself. */
  lemma {:induction false} UidInjective(d1: Draw, d2: Draw)
    requires DrawInRange(d1) && DrawInRange(d2) && UidOf(d1) == UidOf(d2)
    ensures d1 == d2
  {
    var u1, u2 := UidOf(d1), UidOf(d2);
    forall i | 0 <= i < 6 ensures d1.letters[i] == d2.letters[i] {
      assert u1[i] == u2[i];
      LetterAt(d1.letters[i]);
      LetterAt(d2.letters[i]);
    }
    forall i | 0 <= i < 4 ensures d1.digits[i] == d2.digits[i] {
      assert u1[6 + i] == u2[6 + i];
      NumberAt(d1.digits[i]);
      NumberAt(d2.digits[i]);
    }
  }

  /** Every string of the documented format is produced by some draw. */
  lemma {:induction false} EveryUidReachable(uid: string)
    requires WellFormedUid(uid)
    ensures exists d :: DrawInRange(d) && UidOf(d) == uid
  {
    var letters := seq(6, i requires 0 <= i < 6 => (uid[i] as int - 'A' as int) as nat);
    var digits := seq(4, i requires 0 <= i < 4 => (uid[6 + i] as int - '0' as int) as nat);
    var d := Draw(letters, digits);
    forall i | 0 <= i < 6 ensures UidOf(d)[i] == uid[i] {
      LetterAt(letters[i]);
    }
    forall i | 6 <= i < 10 ensures UidOf(d)[i] == uid[i] {
      NumberAt(digits[i - 6]);
    }
    assert UidOf(d) == uid;
  }
}
