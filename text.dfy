/** The two string operations the matching logic relies on: lower-casing and substring search. */
module Text {

  /** `toLowerCase` on one character; only the ASCII letters A-Z change. */
  function LowerChar(c: char): char {
    if 'A' <= c <= 'Z' then (c as int + 32) as char else c
  }

  /** `String.prototype.toLowerCase`, character by character. */
  function Lower(s: string): string {
    seq(|s|, i requires 0 <= i < |s| => LowerChar(s[i]))
  }

  /** `hay.includes(needle)`: `needle` starts at `hay[0]` or somewhere further on. */
  function Includes(hay: string, needle: string): bool {
    needle <= hay || (|hay| > 0 && Includes(hay[1..], needle))
  }

  /** A needle whose first character does not occur in `hay` is not found in it. */
  lemma {:induction false} FirstCharAbsent(hay: string, needle: string)
    requires |needle| > 0 && needle[0] !in hay
    ensures !Includes(hay, needle)
  {
    if |hay| > 0 {
      FirstCharAbsent(hay[1..], needle);
    }
  }

  /** The scan above agrees with the textbook definition: some suffix of `hay` starts with `needle`. */
  lemma {:induction false} IncludesAt(hay: string, needle: string)
    ensures Includes(hay, needle) <==> exists i :: 0 <= i <= |hay| && needle <= hay[i..]
  {
    if needle <= hay {
      assert hay[0..] == hay;
    } else if |hay| == 0 {
      assert forall i :: 0 <= i <= |hay| ==> hay[i..] == hay;
    } else {
      IncludesAt(hay[1..], needle);
      if Includes(hay[1..], needle) {
        var i :| 0 <= i <= |hay[1..]| && needle <= hay[1..][i..];
        assert hay[1..][i..] == hay[i + 1..];
      }
      if exists i :: 0 <= i <= |hay| && needle <= hay[i..] {
        var i :| 0 <= i <= |hay| && needle <= hay[i..];
        assert i != 0;
        assert hay[1..][i - 1..] == hay[i..];
      }
    }
  }
}
