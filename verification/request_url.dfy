/** The request URL that `get_definition` formats with
    `snprintf(url, 256, BASE_URL, word)`: the bytes of the word are substituted
    verbatim, with no percent-encoding, and the result is cut to what fits the
    buffer. Lengths are counted in bytes, as `snprintf` counts them, so a word in
    a multibyte encoding is cut wherever its 255th byte falls. */
module RequestUrl {
  import CText

  type byte = CText.byte

  /** One byte per character: the low seven bits of its code. This is the
      text's encoding only for an all-ASCII text, and it is applied only to the
      base URL below, which is one. */
  function LowSevenBits(s: string): (r: seq<byte>)
    ensures |r| == |s|
    ensures forall k :: 0 <= k < |s| && s[k] as int < 128 ==> r[k] as int == s[k] as int
  {
    seq(|s|, k requires 0 <= k < |s| => (s[k] as int % 128) as byte)
  }

  const BaseUrl: seq<byte> := LowSevenBits("https://api.dictionaryapi.dev/api/v2/entries/en/")

  /** The size of the `url` array, terminator included. */
  const UrlCapacity: nat := 256

  /** The bytes `snprintf` leaves in `url` for the argument bytes `word`. */
  function Url(word: seq<byte>): (r: seq<byte>)
    ensures |r| <= UrlCapacity - 1
    ensures r <= BaseUrl + CText.UpToNul(word, 0)
    ensures |r| == if |BaseUrl + CText.UpToNul(word, 0)| < UrlCapacity then |BaseUrl + CText.UpToNul(word, 0)| else UrlCapacity - 1
  {
    var full := BaseUrl + CText.UpToNul(word, 0);
    if |full| < UrlCapacity then full else full[..UrlCapacity - 1]
  }

  /** A word short enough to fit follows the base URL unchanged and can be read
      back from the URL. */
  lemma ShortWordVerbatim(word: seq<byte>)
    requires 0 !in word
    requires |BaseUrl| + |word| < UrlCapacity
    ensures Url(word) == BaseUrl + word
    ensures Url(word)[|BaseUrl|..] == word
  {
  }

  /** A longer word is cut: the URL is 255 bytes, of which the word contributes
      only its first `255 - 48`. */
  lemma LongWordTruncated(word: seq<byte>)
    requires 0 !in word
    requires |BaseUrl| + |word| >= UrlCapacity
    ensures |Url(word)| == UrlCapacity - 1
    ensures Url(word) == BaseUrl + word[..UrlCapacity - 1 - |BaseUrl|]
  {
    assert |BaseUrl| == 48;
    var full := BaseUrl + word;
    assert full[..UrlCapacity - 1] == BaseUrl + word[..UrlCapacity - 1 - |BaseUrl|];
  }
}
