/** The string helpers of lib/utils.ts. */
module Utils {
  import JsString
  import Ascii

  /** `truncateString(str, num)`: the string itself when it is no longer than
      `num`, otherwise its first `num` characters (as `slice` counts them:
      `num` truncated toward zero, negative counting back from the end)
      followed by "...". */
  function TruncateString(str: string, num: real): (r: string)
    ensures |str| as real <= num ==> r == str
    ensures 0.0 <= num < |str| as real ==>
      num.Floor < |str| && r == str[..num.Floor] + "..." && |r| == num.Floor + 3
    ensures -1.0 < num < 0.0 ==> r == "..."
    ensures num <= -1.0 ==>
      var keep := |str| + JsString.TruncateToInteger(num);
      r == str[..if keep < 0 then 0 else keep] + "..."
  {
    if |str| as real <= num then str
    else
      JsString.SlicePrefix(str, JsString.TruncateToInteger(num));
      JsString.Slice(str, 0, JsString.TruncateToInteger(num)) + "..."
  }

  /** For a non-negative `num`, truncating a truncated string changes nothing. */
  lemma TruncateIdempotent(str: string, num: real)
    requires num >= 0.0
    ensures TruncateString(TruncateString(str, num), num) == TruncateString(str, num)
  {
    var r := TruncateString(str, num);
    if |str| as real > num {
      var k := num.Floor;
      assert |r| as real > num;
      assert r[..k] == str[..k];
    }
  }

  /** A truncated string is `num + 3` long, so for a `num` within three of the
      length the "truncated" result is longer than the input. */
  lemma TruncateCanLengthen(str: string, num: nat)
    requires |str| - 3 < num < |str|
    ensures |TruncateString(str, num as real)| > |str|
  {
    assert (num as real).Floor == num;
  }

  /** With a negative `num` truncation is not idempotent: "ab" cut at -1 is
      "a...", and cutting that again at -1 drops one more character. */
  lemma TruncateNegativeNotIdempotent()
    ensures TruncateString("ab", -1.0) == "a..."
    ensures TruncateString("a...", -1.0) == "a....."
  {
  }

  /** `capitalizeFirstLetter(s)`: the first character upper-cased, followed
      by the rest of the string unchanged. */
  function CapitalizeFirstLetter(s: string): (r: string)
    ensures |r| == |s|
    ensures s == [] ==> r == []
    ensures |s| > 0 ==> r[0] == Ascii.UpperChar(s[0]) && r[1..] == s[1..]
    ensures |s| > 0 && Ascii.IsLetter(s[0]) ==> Ascii.IsUpperLetter(r[0])
    ensures |s| > 0 && !Ascii.IsLowerLetter(s[0]) ==> r == s
  {
    JsString.SliceTail(s);
    Ascii.ToUpper(JsString.CharAt(s, 0)) + JsString.Slice(s, 1, |s|)
  }

  /** Capitalizing twice is capitalizing once. */
  lemma CapitalizeIdempotent(s: string)
    ensures CapitalizeFirstLetter(CapitalizeFirstLetter(s)) == CapitalizeFirstLetter(s)
  {
  }
}
