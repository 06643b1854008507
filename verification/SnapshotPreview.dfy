/** Cutting a redacted payload down to a given number of characters.

    `text` is the redacted document as JSON text. How one character is written inside a JSON
    string is a parameter, of which only its not being empty matters.
  */
module SnapshotPreview {
  import opened Common

  type Escaper = char -> string

  ghost predicate Lawful(escape: Escaper) {
    forall c :: |escape(c)| >= 1
  }

  function Digits(n: nat): string {
    if n < 10 then [('0' as int + n) as char] else Digits(n / 10) + [('0' as int + n % 10) as char]
  }

  function Escaped(s: string, escape: Escaper): string {
    if s == "" then "" else Escaped(s[..|s| - 1], escape) + escape(s[|s| - 1])
  }

  /** The document that stands for a text cut to `preview`. */
  function Wrapped(preview: string, maxChars: nat, escape: Escaper): string {
    "{\"_max_chars\":" + Digits(maxChars) + ",\"_preview\":\"" + Escaped(preview, escape) + "\",\"_truncated\":true}"
  }

  function Cut(text: string, n: nat): string {
    text[..Min(n, |text|)]
  }

  lemma {:induction false} LongerPreviewIsLonger(text: string, m: nat, n: nat, maxChars: nat, escape: Escaper)
    requires Lawful(escape) && m <= n
    ensures |Wrapped(Cut(text, m), maxChars, escape)| <= |Wrapped(Cut(text, n), maxChars, escape)|
    decreases n
  {
    if m < n && n <= |text| {
      LongerPreviewIsLonger(text, m, n - 1, maxChars, escape);
      assert Cut(text, n)[..n - 1] == Cut(text, n - 1);
    } else if m < n {
      LongerPreviewIsLonger(text, m, n - 1, maxChars, escape);
      assert Cut(text, n) == Cut(text, n - 1);
    }
  }

  /** The whole text if it fits; otherwise the wrapping of a non-empty prefix of it, which
      fits exactly when wrapping a single character does. */
  method SanitizedSnapshot(text: string, maxChars: nat, escape: Escaper) returns (snapshot: string, shown: nat)
    requires Lawful(escape)
    ensures |text| <= maxChars ==> snapshot == text
    ensures |text| > maxChars ==> shown >= 1 && snapshot == Wrapped(Cut(text, shown), maxChars, escape)
    ensures |snapshot| <= maxChars <==> |text| <= maxChars || |Wrapped(Cut(text, 1), maxChars, escape)| <= maxChars
    ensures |text| > maxChars && |snapshot| > maxChars ==> shown == 1
    ensures |text| > maxChars ==> shown <= Max(maxChars - 128, 1)
    ensures |text| > maxChars && |Wrapped(Cut(text, Max(maxChars - 128, 1)), maxChars, escape)| <= maxChars ==>
              shown == Max(maxChars - 128, 1)
  {
    if |text| <= maxChars {
      return text, |text|;
    }
    var previewLen := Max(Max(maxChars - 128, 0), 1);
    while true
      invariant 1 <= previewLen <= Max(maxChars - 128, 1)
      invariant previewLen < Max(maxChars - 128, 1) ==>
                  |Wrapped(Cut(text, Max(maxChars - 128, 1)), maxChars, escape)| > maxChars
      decreases previewLen
    {
      var wrapped := Wrapped(Cut(text, previewLen), maxChars, escape);
      if |wrapped| <= maxChars || previewLen == 1 {
        LongerPreviewIsLonger(text, 1, previewLen, maxChars, escape);
        return wrapped, previewLen;
      }
      previewLen := Max(Max(previewLen - (|wrapped| - maxChars), 0), 1);
    }
  }

  /** Reading the digits back gives the number. */
  function Number(digits: string): int {
    if digits == "" then 0 else 10 * Number(digits[..|digits| - 1]) + (digits[|digits| - 1] as int - '0' as int)
  }

  lemma {:induction false} DigitsReadBack(n: nat)
    ensures Number(Digits(n)) == n
    ensures forall i :: 0 <= i < |Digits(n)| ==> '0' <= Digits(n)[i] <= '9'
  {
    if n >= 10 {
      DigitsReadBack(n / 10);
      assert Digits(n)[..|Digits(n)| - 1] == Digits(n / 10);
    } else {
      assert Digits(n)[..0] == "" && Number("") == 0;
    }
  }

  lemma {:induction false} FewDigits(n: nat, k: nat, bound: nat)
    requires n < bound && bound == Power10(k) && k >= 1
    ensures |Digits(n)| <= k
    decreases k
  {
    if n >= 10 {
      FewDigits(n / 10, k - 1, Power10(k - 1));
    }
  }

  function Power10(k: nat): nat {
    if k == 0 then 1 else 10 * Power10(k - 1)
  }

  /** A text whose characters need no escape is written as it is. */
  lemma {:induction false} PlainIsUnchanged(text: string, escape: Escaper)
    requires forall i :: 0 <= i < |text| ==> escape(text[i]) == [text[i]]
    ensures Escaped(text, escape) == text
  {
    if text != "" {
      var n := |text| - 1;
      var front := text[..n];
      assert forall i :: 0 <= i < n ==> front[i] == text[i];
      PlainIsUnchanged(front, escape);
      calc {
        Escaped(text, escape);
        front + escape(text[n]);
        front + [text[n]];
        text;
      }
    }
  }

  /** A text that is too long and needs no escapes loses all but its first max - 128
      characters, which then stand in the answer as they are: the frame takes 47 characters
      and the digits, of which a 64-bit limit has at most 20. */
  lemma PlainTextKeepsAllButTheFrame(text: string, maxChars: nat, escape: Escaper)
    requires forall i :: 0 <= i < |text| ==> escape(text[i]) == [text[i]]
    requires 128 < maxChars < |text| && maxChars < Power10(20)
    ensures var wrapped := Wrapped(Cut(text, maxChars - 128), maxChars, escape);
            && |wrapped| <= maxChars
            && wrapped == "{\"_max_chars\":" + Digits(maxChars) + ",\"_preview\":\"" + text[..maxChars - 128] + "\",\"_truncated\":true}"
  {
    var preview := Cut(text, maxChars - 128);
    assert forall i :: 0 <= i < |preview| ==> preview[i] == text[i];
    PlainIsUnchanged(preview, escape);
    FewDigits(maxChars, 20, Power10(20));
  }
}
