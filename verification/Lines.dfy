/** Lines of a byte stream, as `BufRead::read_until` LF cuts them. */
module Lines {
  import opened Words

  const LF: byte := 10

  /** The length of the first line, with its LF if it has one. */
  function LineLength(s: seq<byte>): (n: nat)
    ensures n <= |s| && (s != [] ==> n > 0)
    ensures forall i :: 0 <= i < n - 1 ==> s[i] != LF
    ensures n < |s| ==> s[n - 1] == LF
  {
    if s == [] then 0 else if s[0] == LF then 1 else 1 + LineLength(s[1..])
  }

  lemma {:induction false} LineLengthIs(s: seq<byte>, n: nat)
    requires 0 < n <= |s| && s[n - 1] == LF && forall i :: 0 <= i < n - 1 ==> s[i] != LF
    ensures LineLength(s) == n
  {
    if n > 1 {
      LineLengthIs(s[1..], n - 1);
    }
  }

  /** `read_until` LF from `position`. */
  method ReadLine(s: seq<byte>, position: nat) returns (end: nat)
    requires position <= |s|
    ensures end == position + LineLength(s[position..])
  {
    end := position;
    while end < |s|
      invariant position <= end <= |s|
      invariant LineLength(s[position..]) == end - position + LineLength(s[end..])
    {
      assert s[end..][1..] == s[end + 1..];
      end := end + 1;
      if s[end - 1] == LF {
        return;
      }
    }
  }
}
