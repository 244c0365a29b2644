/** Comparing host names without regard to case. A C string is the sequence of its characters,
    none of them zero; the terminator follows them. */
module CStrings {
  import opened Words

  /** lwip_tolower */
  function ToLower(c: byte): byte {
    if 65 <= c <= 90 then c + 32 else c
  }

  /** The C expression c | 0x20. */
  function SetBit5(c: byte): byte {
    if c / 32 % 2 == 0 then c + 32 else c
  }

  function CharAt(s: seq<byte>, i: nat): byte {
    if i < |s| then s[i] else 0
  }

  ghost predicate SameName(a: seq<byte>, b: seq<byte>) {
    |a| == |b| && forall i | 0 <= i < |a| :: ToLower(a[i]) == ToLower(b[i])
  }

  function Cut(s: seq<byte>, len: nat): (c: seq<byte>)
    ensures |s| <= len ==> c == s
  {
    if |s| <= len then s else s[..len]
  }

  /** Two characters that lwip_strnicmp lets pass are the same letter or the same character. */
  lemma SamePair(c1: byte, c2: byte)
    ensures ToLower(c1) == ToLower(c2) <==>
            c1 == c2 || (97 <= SetBit5(c1) <= 122 && SetBit5(c1) == SetBit5(c2))
  {
  }

  /** lwip_strnicmp compares at most len characters; both strings end together or differ. */
  method Strnicmp(str1: seq<byte>, str2: seq<byte>, len: nat) returns (r: int)
    requires 0 !in str1 && 0 !in str2 && len > 0
    ensures r == 0 <==> SameName(Cut(str1, len), Cut(str2, len))
    ensures |str1| <= len && |str2| <= len ==>
      (r == 0 <==> |str1| == |str2| && forall i | 0 <= i < |str1| :: ToLower(str1[i]) == ToLower(str2[i]))
  {
    hide SetBit5, ToLower;
    var i, rest, more := 0, len, true;
    while more
      invariant i <= |str1| + 1 && rest + i == len
      invariant forall k | 0 <= k < i :: ToLower(CharAt(str1, k)) == ToLower(CharAt(str2, k))
      invariant more ==> i <= |str1| && i <= |str2| && rest > 0
      invariant !more ==> (rest == 0 && i <= |str1| && i <= |str2|) || i == |str1| + 1 == |str2| + 1
      decreases more, rest
    {
      var c1, c2 := CharAt(str1, i), CharAt(str2, i);
      SamePair(c1, c2);
      if c1 != c2 {
        if 97 <= SetBit5(c1) <= 122 {
          if SetBit5(c1) != SetBit5(c2) {
            Differ(str1, str2, len, i);
            return 1;
          }
        } else {
          Differ(str1, str2, len, i);
          return 1;
        }
      }
      ZeroAlone(c1, c2);
      i := i + 1;
      rest := rest - 1;
      more := rest != 0 && c1 != 0;
    }
    r := 0;
    forall k | 0 <= k < |Cut(str1, len)|
      ensures ToLower(Cut(str1, len)[k]) == ToLower(CharAt(str2, k))
    {
      assert ToLower(CharAt(str1, k)) == ToLower(CharAt(str2, k));
    }
  }

  lemma ZeroAlone(c1: byte, c2: byte)
    requires ToLower(c1) == ToLower(c2)
    ensures c1 == 0 <==> c2 == 0
  {
  }

  lemma Differ(a: seq<byte>, b: seq<byte>, len: nat, i: nat)
    requires i <= |a| && i <= |b| && i < len && ToLower(CharAt(a, i)) != ToLower(CharAt(b, i))
    ensures !SameName(Cut(a, len), Cut(b, len))
  {
    if |Cut(a, len)| == |Cut(b, len)| {
      assert Cut(a, len)[i] == a[i] && Cut(b, len)[i] == b[i];
    }
  }
}
