/**
  String vocabulary shared by the visitor model: prefix and suffix tests,
  the line terminators a JavaScript regular expression `.` refuses to match,
  and `Array.prototype.join`.
 */
module Strings {

  datatype Option<+T> = None | Some(value: T)

  predicate StartsWith(s: string, prefix: string) {
    |prefix| <= |s| && s[..|prefix|] == prefix
  }

  predicate EndsWith(s: string, suffix: string) {
    |suffix| <= |s| && s[|s| - |suffix|..] == suffix
  }

  /** LF, CR, LINE SEPARATOR and PARAGRAPH SEPARATOR: the characters that `.`
      in a JavaScript regular expression without the `s` flag does not match. */
  predicate IsLineTerminator(c: char) {
    c == '\n' || c == '\r' || c == '\U{2028}' || c == '\U{2029}'
  }

  predicate NoLineTerminator(s: string) {
    forall k :: 0 <= k < |s| ==> !IsLineTerminator(s[k])
  }

  lemma NoLineTerminatorConcat(a: string, b: string)
    ensures NoLineTerminator(a + b) <==> NoLineTerminator(a) && NoLineTerminator(b)
  {
    if NoLineTerminator(a + b) {
      forall k | 0 <= k < |a| ensures !IsLineTerminator(a[k]) {
        assert a[k] == (a + b)[k];
      }
      forall k | 0 <= k < |b| ensures !IsLineTerminator(b[k]) {
        assert b[k] == (a + b)[|a| + k];
      }
    }
  }

  lemma EndsWithConcat(a: string, b: string)
    ensures EndsWith(a + b, b)
  {
    assert (a + b)[|a + b| - |b|..] == b;
  }

  /** `parts.join(sep)`: the parts in order, with `sep` between neighbours. */
  function Join(parts: seq<string>, sep: string): string {
    if |parts| == 0 then ""
    else if |parts| == 1 then parts[0]
    else parts[0] + sep + Join(parts[1..], sep)
  }

  /** Joining line-free parts with a line-free separator gives a line-free string. */
  lemma {:induction false} JoinNoLineTerminator(parts: seq<string>, sep: string)
    requires forall k :: 0 <= k < |parts| ==> NoLineTerminator(parts[k])
    requires NoLineTerminator(sep)
    ensures NoLineTerminator(Join(parts, sep))
  {
    if |parts| > 1 {
      JoinNoLineTerminator(parts[1..], sep);
      NoLineTerminatorConcat(parts[0], sep);
      NoLineTerminatorConcat(parts[0] + sep, Join(parts[1..], sep));
    }
  }
}
