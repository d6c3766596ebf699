/** Characters written out, for what is said of texts without ranges of codes. */
module Characters {
  import opened Bytes

  const LETTERS := "abcdefghijklmnopqrstuvwxyz"
  const CAPITALS := "ABCDEFGHIJKLMNOPQRSTUVWXYZ"
  const DIGITS := "0123456789"

  function CodeOf(c: char): byte {
    if c < '\U{0080}' then c as int else 0
  }

  /** The bytes of a text in ASCII. */
  function InAscii(text: string): (bytes: seq<byte>)
    ensures |bytes| == |text| && forall i | 0 <= i < |text| :: bytes[i] == CodeOf(text[i])
  {
    seq(|text|, i requires 0 <= i < |text| => CodeOf(text[i]))
  }

  /** A text of characters that follow each other in their code contains a range of codes. */
  lemma Consecutive(text: string, c: char)
    requires text != "" && forall i | 0 <= i < |text| - 1 :: text[i + 1] as int == text[i] as int + 1
    ensures c in text <==> text[0] <= c <= text[|text| - 1]
  {
    Codes(text, |text| - 1);
    if c in text {
      var i :| 0 <= i < |text| && text[i] == c;
      Codes(text, i);
    }
    if text[0] <= c <= text[|text| - 1] {
      Codes(text, c as int - text[0] as int);
      assert text[c as int - text[0] as int] == c;
    }
  }

  lemma {:induction false} Codes(text: string, k: nat)
    requires k < |text| && forall i | 0 <= i < |text| - 1 :: text[i + 1] as int == text[i] as int + 1
    ensures text[k] as int == text[0] as int + k
  {
    if k > 0 {
      Codes(text, k - 1);
      assert text[k - 1 + 1] as int == text[k - 1] as int + 1;
    }
  }

  lemma Ranges(c: char)
    ensures c in LETTERS <==> 'a' <= c <= 'z'
    ensures c in CAPITALS <==> 'A' <= c <= 'Z'
    ensures c in DIGITS <==> '0' <= c <= '9'
  {
    Consecutive(LETTERS, c);
    Consecutive(CAPITALS, c);
    Consecutive(DIGITS, c);
  }
}
