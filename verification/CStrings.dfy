/** Zero-terminated strings in byte buffers: the strcmp and strncpy of lib/string.c that the directory
    code relies on. */
module CStrings {
  import opened Bytes

  /** A C string without its terminating zero. */
  type Name = s: seq<Byte> | forall i :: 0 <= i < |s| ==> s[i] != 0
    witness []

  function ZeroFrom(f: seq<Byte>, i: nat): (n: nat)
    requires i <= |f|
    ensures i <= n <= |f|
    ensures forall j :: i <= j < n ==> f[j] != 0
    ensures n < |f| ==> f[n] == 0
    decreases |f| - i
  {
    if i == |f| || f[i] == 0 then i else ZeroFrom(f, i + 1)
  }

  /** The bytes of a buffer before its first zero. */
  function CString(f: seq<Byte>): Name
  {
    f[..ZeroFrom(f, 0)]
  }

  lemma CStringOf(s: Name, f: seq<Byte>)
    requires |s| < |f| && f[..|s|] == s && f[|s|] == 0
    ensures CString(f) == s
  {
    assert forall i :: 0 <= i < |s| ==> f[i] == s[i];
  }

  /** The buffer has a zero in it, so that scanning it stops. */
  predicate Terminated(f: seq<Byte>)
  {
    ZeroFrom(f, 0) < |f|
  }

  /** A buffer holding just the string. */
  function Buffer(s: Name): (f: seq<Byte>)
    ensures Terminated(f) && CString(f) == s
  {
    CStringOf(s, s + [0]);
    s + [0]
  }

  /** First position where the two strings part. */
  predicate PartAt(a: seq<Byte>, b: seq<Byte>, i: nat)
  {
    i < |a| && i < |b| && a[..i] == b[..i] && (forall j :: 0 <= j < i ==> a[j] != 0) && (a[i] == 0 || a[i] != b[i])
  }

  /** strcmp is zero on equal strings; otherwise it has the sign of the first difference. */
  method StrCmp(a: seq<Byte>, b: seq<Byte>) returns (r: int)
    requires Terminated(a) && Terminated(b)
    ensures r == 0 <==> CString(a) == CString(b)
    ensures exists i: nat :: PartAt(a, b, i) && r == a[i] as int - b[i] as int
  {
    var i := 0;
    while a[i] != 0 && a[i] == b[i]
      invariant i <= ZeroFrom(a, 0) && i <= ZeroFrom(b, 0)
      invariant a[..i] == b[..i]
      decreases |a| - i
    {
      i := i + 1;
    }
    assert PartAt(a, b, i);
    r := a[i] as int - b[i] as int;
    if r == 0 {
      CStringOf(a[..i], a);
      CStringOf(a[..i], b);
    } else {
      PartMeansDifferent(a, b, i);
    }
  }

  lemma PartMeansDifferent(a: seq<Byte>, b: seq<Byte>, i: nat)
    requires Terminated(a) && Terminated(b) && PartAt(a, b, i) && a[i] != b[i]
    ensures CString(a) != CString(b)
  {
    var m, n := ZeroFrom(a, 0), ZeroFrom(b, 0);
    assert i <= m && i <= n by {
      assert forall j :: 0 <= j < i ==> a[..i][j] == b[..i][j];
    }
    if m == n {
      assert i < m;
      assert a[..m][i] != b[..n][i];
    }
  }

  /** strncpy: the string cut at `n` bytes, then zeros up to `n`. */
  method StrNCpy(dst: seq<Byte>, src: seq<Byte>, n: nat) returns (r: seq<Byte>)
    requires Terminated(src) && n <= |dst|
    ensures |r| == |dst| && r[n..] == dst[n..]
    ensures forall i :: 0 <= i < n ==> r[i] == if i < |CString(src)| then src[i] else 0
  {
    r := dst;
    var i := 0;
    while i < n && src[i] != 0
      invariant i <= n && i <= ZeroFrom(src, 0) && |r| == |dst| && r[n..] == dst[n..]
      invariant forall j :: 0 <= j < i ==> r[j] == src[j]
    {
      r := r[i := src[i]];
      i := i + 1;
    }
    ghost var stop := i;
    while i < n
      invariant stop <= i <= n && |r| == |dst| && r[n..] == dst[n..]
      invariant forall j :: 0 <= j < i ==> r[j] == if j < stop then src[j] else 0
    {
      r := r[i := 0];
      i := i + 1;
    }
  }
}
