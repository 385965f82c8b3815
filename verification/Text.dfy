/** Strings and bytes shared by the components: a bounded copy, substring search, path joining. */
module Text {

  datatype Option<+T> = None | Some(value: T)

  type byte = x: int | 0 <= x < 256

  /** The terminator of C strings; the strings of this model do not include it. */
  const NUL: char := '\0'

  /** What a bounded string copy leaves in a buffer with room for n characters and a terminator. */
  function Take(s: string, n: nat): string {
    if |s| <= n then s else s[..n]
  }

  predicate OccursAt(s: string, t: string, i: nat) {
    i + |t| <= |s| && s[i..i + |t|] == t
  }

  ghost predicate Contains(s: string, t: string) {
    exists i: nat :: OccursAt(s, t, i)
  }

  /** strstr, from position `from` on: the first occurrence. */
  function FindFirst(s: string, t: string, from: nat): (r: Option<nat>)
    requires from <= |s|
    ensures r.Some? ==> from <= r.value && OccursAt(s, t, r.value)
    ensures r.Some? ==> forall i: nat :: from <= i < r.value ==> !OccursAt(s, t, i)
    ensures r.None? ==> forall i: nat :: from <= i ==> !OccursAt(s, t, i)
    decreases |s| - from
  {
    if OccursAt(s, t, from) then Some(from)
    else if from == |s| then None
    else FindFirst(s, t, from + 1)
  }

  /** Python's rfind below position `upto`: the last occurrence. */
  function FindLast(s: string, t: string, upto: nat): (r: Option<nat>)
    ensures r.Some? ==> r.value < upto && OccursAt(s, t, r.value)
    ensures r.Some? ==> forall i: nat :: r.value < i < upto ==> !OccursAt(s, t, i)
    ensures r.None? ==> forall i: nat :: i < upto ==> !OccursAt(s, t, i)
  {
    if upto == 0 then None
    else if OccursAt(s, t, upto - 1) then Some(upto - 1)
    else FindLast(s, t, upto - 1)
  }

  /** The path duPathJoin builds when the buffer is large enough: one slash between the parts. */
  function Joined(a: string, b: string): string {
    var tail := if |b| > 0 && b[0] == '/' then b[1..] else b;
    if |a| > 0 && a[|a| - 1] == '/' then a + tail else a + "/" + tail
  }

  function TrimSlashes(s: string): string {
    if |s| > 0 && s[|s| - 1] == '/' then TrimSlashes(s[..|s| - 1]) else s
  }

  function AfterLastSlash(s: string): string {
    if |s| == 0 || s[|s| - 1] == '/' then "" else AfterLastSlash(s[..|s| - 1]) + [s[|s| - 1]]
  }

  /** POSIX basename. */
  function Basename(s: string): string {
    if s == "" then "."
    else if TrimSlashes(s) == "" then "/"
    else AfterLastSlash(TrimSlashes(s))
  }

  // ---------- what the path functions mean ----------

  lemma TakeIsPrefix(s: string, n: nat)
    ensures Take(s, n) <= s && |Take(s, n)| == if |s| <= n then |s| else n
  {
  }

  /** Between the parts of a joined path stands exactly one slash, whether or not the parts bring one. */
  lemma JoinedHasOneSlash(a: string, b: string)
    ensures Joined(a + "/", "/" + b) == a + "/" + b
    ensures (b == "" || b[0] != '/') ==> Joined(a + "/", b) == a + "/" + b
    ensures (a == "" || a[|a| - 1] != '/') ==> Joined(a, "/" + b) == a + "/" + b
    ensures (a == "" || a[|a| - 1] != '/') && (b == "" || b[0] != '/') ==> Joined(a, b) == a + "/" + b
  {
    assert ("/" + b)[1..] == b;
    assert (a + "/") + b == a + "/" + b;
  }

  function Slashes(n: nat): (s: string)
    ensures |s| == n
  {
    if n == 0 then "" else Slashes(n - 1) + "/"
  }

  lemma {:induction false} TrimmedOf(s: string, n: nat)
    requires s == "" || s[|s| - 1] != '/'
    ensures TrimSlashes(s + Slashes(n)) == s
  {
    var t := s + Slashes(n);
    if n == 0 {
      assert t == s;
    } else {
      assert t == (s + Slashes(n - 1)) + "/";
      assert t[..|t| - 1] == s + Slashes(n - 1);
      TrimmedOf(s, n - 1);
    }
  }

  lemma {:induction false} LastPartOf(dir: string, last: string)
    requires '/' !in last
    ensures AfterLastSlash(dir + "/" + last) == last
  {
    var s := dir + "/" + last;
    if last != "" {
      var shorter, c := last[..|last| - 1], last[|last| - 1];
      assert s[..|s| - 1] == dir + "/" + shorter;
      assert last == shorter + [c] && c in last;
      LastPartOf(dir, shorter);
    }
  }

  /** The base name is what stands behind the last slash that does not end the path. */
  lemma BasenameOf(dir: string, last: string, n: nat)
    requires last != "" && '/' !in last
    ensures Basename(dir + "/" + last + Slashes(n)) == last
    ensures Basename(last + Slashes(n)) == last
  {
    var c := last[|last| - 1];
    assert c in last;
    TrimmedOf(dir + "/" + last, n);
    LastPartOf(dir, last);
    TrimmedOf(last, n);
    NoSlashInside(last);
  }

  lemma {:induction false} NoSlashInside(s: string)
    requires '/' !in s
    ensures AfterLastSlash(s) == s
  {
    if s != "" {
      assert s == s[..|s| - 1] + [s[|s| - 1]] && s[|s| - 1] in s;
      NoSlashInside(s[..|s| - 1]);
    }
  }
}
