/**
 * PinYinUtil.getPinyin: the pinyin initials of a string, one per character.
 * The transliteration library (Pinyin.toPinyin) is a parameter; it always returns a non-empty
 * syllable, which the type Syllable records.
 */
module PinYinUtil {

  /** A non-empty string, as Pinyin.toPinyin returns for every character. */
  type Syllable = s: string | s != [] witness "a"

  /** The first letter of each character's transliteration, in order. */
  function Initials(chinese: string, toPinyin: char -> Syllable): (r: string)
    ensures |r| == |chinese|
  {
    if chinese == [] then [] else [toPinyin(chinese[0])[0]] + Initials(chinese[1..], toPinyin)
  }

  /** Output character i is the first character of the transliteration of input character i. */
  lemma {:induction false} InitialsAt(chinese: string, toPinyin: char -> Syllable, i: nat)
    requires i < |chinese|
    ensures Initials(chinese, toPinyin)[i] == toPinyin(chinese[i])[0]
  {
    if i > 0 {
      InitialsAt(chinese[1..], toPinyin, i - 1);
    }
  }

  /** Initials distributes over concatenation. */
  lemma {:induction false} InitialsAppend(a: string, b: string, toPinyin: char -> Syllable)
    ensures Initials(a + b, toPinyin) == Initials(a, toPinyin) + Initials(b, toPinyin)
  {
    if a != [] {
      assert (a + b)[1..] == a[1..] + b;
      InitialsAppend(a[1..], b, toPinyin);
    } else {
      assert a + b == b;
    }
  }

  /** The StringBuilder loop of getPinyin. */
  method GetPinyin(chinese: string, toPinyin: char -> Syllable) returns (pinyin: string)
    ensures pinyin == Initials(chinese, toPinyin)
    ensures |pinyin| == |chinese|
    ensures forall i | 0 <= i < |chinese| :: pinyin[i] == toPinyin(chinese[i])[0]
  {
    pinyin := [];
    var i := 0;
    while i < |chinese|
      invariant 0 <= i <= |chinese|
      invariant pinyin == Initials(chinese[..i], toPinyin)
    {
      var c := toPinyin(chinese[i]);
      pinyin := pinyin + [c[0]];
      assert chinese[..i + 1] == chinese[..i] + [chinese[i]];
      InitialsAppend(chinese[..i], [chinese[i]], toPinyin);
      i := i + 1;
    }
    assert chinese[..i] == chinese;
    forall i | 0 <= i < |chinese| ensures pinyin[i] == toPinyin(chinese[i])[0] {
      InitialsAt(chinese, toPinyin, i);
    }
  }
}
