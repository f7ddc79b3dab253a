/** The bounded string copy and append, on character buffers changed in place. */
module SafeString {

  const NUL := '\0'

  // ---------- C strings ----------

  /** The characters of a C string, without its terminator. */
  predicate IsText(s: string) {
    forall i | 0 <= i < |s| :: s[i] != NUL
  }

  /** `size` cells from `off` hold the C string `s`, terminator included. */
  predicate Holds(all: seq<char>, off: nat, size: nat, s: string) {
    && off + size <= |all| && |s| < size
    && IsText(s)
    && (forall i | 0 <= i < |s| :: all[off + i] == s[i])
    && all[off + |s|] == NUL
  }

  /** A stretch with a NUL in it holds a C string ... */
  lemma {:induction false} HoldsSome(all: seq<char>, off: nat, size: nat, n: nat)
    requires off + size <= |all| && n < size && all[off + n] == NUL
    ensures exists s :: Holds(all, off, size, s)
    decreases n
  {
    var s := all[off..off + n];
    if k :| 0 <= k < n && s[k] == NUL {
      HoldsSome(all, off, size, k);
    } else {
      assert Holds(all, off, size, s);
    }
  }

  /** ... and only one. */
  lemma HoldsOne(all: seq<char>, off: nat, size: nat, s: string, t: string)
    requires Holds(all, off, size, s) && Holds(all, off, size, t)
    ensures s == t
  {
    NotLonger(all, off, size, s, t, |t|);
    NotLonger(all, off, size, t, s, |s|);
    assert forall i | 0 <= i < |s| :: s[i] == all[off + i] == t[i];
  }

  lemma {:induction false} NotLonger(all: seq<char>, off: nat, size: nat, s: string, t: string, n: nat)
    requires Holds(all, off, size, s) && Holds(all, off, size, t) && n <= |t|
    ensures n <= |s|
  {
    if n > 0 {
      NotLonger(all, off, size, s, t, n - 1);
      assert all[off + (n - 1)] == t[n - 1] != NUL;
    }
  }

  function Truncated(s: string, n: nat): string {
    if |s| <= n then s else s[..n]
  }

  function Padded(s: string, size: nat): (r: seq<char>)
    requires |s| <= size
    ensures |r| == size
  {
    s + seq(size - |s|, i => NUL)
  }

  /** Reading a source at or before its terminator. */
  function SourceAt(src: string, i: nat): char
    requires i <= |src|
  {
    if i == |src| then NUL else src[i]
  }

  /** Nothing but `size` cells from `off` has changed. */
  predicate OnlyWithin(before: seq<char>, after: seq<char>, off: nat, size: nat)
    requires off + size <= |before|
  {
    && |after| == |before|
    && forall i | 0 <= i < |before| && !(off <= i < off + size) :: after[i] == before[i]
  }

  /** All cells once `size` of them from `off` have been filled with a text and NULs behind it. */
  function Filled(all: seq<char>, off: nat, size: nat, s: string): seq<char>
    requires off + size <= |all| && |s| <= size
  {
    all[..off] + Padded(s, size) + all[off + size..]
  }

  function Concatenated(parts: seq<string>): string {
    if parts == [] then "" else Concatenated(parts[..|parts| - 1]) + parts[|parts| - 1]
  }

  /** Truncating as one goes along loses nothing that truncating at the end would keep. */
  lemma TruncatedAppend(x: string, y: string, n: nat)
    ensures Truncated(Truncated(x, n) + y, n) == Truncated(x + y, n)
  {
  }

  /** One more source after the first `i`. */
  lemma NextPart(had: string, parts: seq<string>, i: nat, n: nat)
    requires i < |parts|
    ensures |Concatenated(parts[..i + 1])| == |Concatenated(parts[..i])| + |parts[i]|
    ensures Truncated(Truncated(had + Concatenated(parts[..i]), n) + parts[i], n)
            == Truncated(had + Concatenated(parts[..i + 1]), n)
  {
    var c := Concatenated(parts[..i]);
    assert parts[..i + 1][..i] == parts[..i];
    assert had + c + parts[i] == had + (c + parts[i]);
    TruncatedAppend(had + c, parts[i], n);
  }

  lemma {:induction false} FirstPart(first: string, more: seq<string>)
    ensures Concatenated([first] + more) == first + Concatenated(more)
  {
    if more == [] {
      assert [first] + more == [first];
      assert Concatenated([first][..0]) == "";
    } else {
      var n := |more| - 1;
      assert ([first] + more)[..|more|] == [first] + more[..n];
      FirstPart(first, more[..n]);
    }
  }

  lemma AllParts(first: string, more: seq<string>, n: nat)
    ensures Truncated(Truncated(first, n) + Concatenated(more), n) == Truncated(Concatenated([first] + more), n)
    ensures |first| + |Concatenated(more)| == |Concatenated([first] + more)|
  {
    FirstPart(first, more);
    TruncatedAppend(first, Concatenated(more), n);
  }

  // ---------- The library calls ----------

  method Memset(dst: array<char>, off: nat, n: nat)
    requires off + n <= dst.Length
    modifies dst
    ensures dst[..] == Filled(old(dst[..]), off, n, "")
  {
    for i := 0 to n
      invariant dst[..off] == old(dst[..off]) && dst[off + n..] == old(dst[off + n..])
      invariant forall k | off <= k < off + i :: dst[k] == NUL
    {
      dst[off + i] := NUL;
    }
    assert dst[off..off + n] == Padded("", n);
    assert dst[..] == dst[..off] + dst[off..off + n] + dst[off + n..];
  }

  /** Copies at most `n` characters and fills what is left of the `n` with NUL. */
  method Strncpy(dst: array<char>, off: nat, src: string, n: nat)
    requires off + n <= dst.Length && IsText(src)
    modifies dst
    ensures dst[..] == Filled(old(dst[..]), off, n, Truncated(src, n))
  {
    for i := 0 to n
      invariant dst[..off] == old(dst[..off]) && dst[off + n..] == old(dst[off + n..])
      invariant forall k | off <= k < off + i :: dst[k] == if k - off < |src| then src[k - off] else NUL
    {
      dst[off + i] := if i < |src| then src[i] else NUL;
    }
    assert dst[off..off + n] == Padded(Truncated(src, n), n);
    assert dst[..] == dst[..off] + dst[off..off + n] + dst[off + n..];
  }

  method Strlen(dst: array<char>, off: nat, size: nat, ghost had: string) returns (n: nat)
    requires Holds(dst[..], off, size, had)
    ensures n == |had|
  {
    n := 0;
    while dst[off + n] != NUL
      invariant n <= |had| && (n < |had| ==> dst[off + n] == had[n])
      decreases size - n
    {
      n := n + 1;
    }
  }

  // ---------- safe_strcpy ----------

  /** Copying over all but the last cell of a cleared stretch leaves a terminator.  The cell two before the
      end of the stretch is occupied exactly when the copy filled the room there was; in a stretch of one
      cell it is the cell before the stretch. */
  lemma ClearedThenCopied(all: seq<char>, off: nat, size: nat, kept: string)
    requires 1 <= size && 2 <= off + size <= |all| && IsText(kept) && |kept| <= size - 1
    ensures var copied := Filled(Filled(all, off, size, ""), off, size - 1, kept);
            && copied == Filled(all, off, size, kept)
            && (size >= 2 ==> (copied[off + size - 2] != NUL <==> |kept| == size - 1))
            && (size == 1 ==> copied[off + size - 2] == all[off - 1])
  {
  }

  /** Fills `size` cells from `off` with as much of the source as fits before a terminator, padded with NUL,
      and touches nothing else.  The code then reads the cell at `size - 2`, which lies inside the
      destination exactly when `size` is at least 2; only then does the returned value always say whether
      anything was cut off.  With a size of 1, which the header allows, it depends on the cell before. */
  method SafeStrcpy(dst: array<char>, off: nat, size: nat, src: string) returns (r: int)
    requires 1 <= size && 2 <= off + size <= dst.Length && IsText(src)
    modifies dst
    ensures dst[..] == Filled(old(dst[..]), off, size, Truncated(src, size - 1))
    ensures r == 0 || r == 1
    ensures size >= 2 ==> (r == 1 <==> |src| > size - 1)
    ensures size == 1 ==> (r == 1 <==> src != "" && old(dst[off - 1]) != NUL)
    ensures (r == 1 <==> |src| > size - 1) <==> (size >= 2 || src == "" || old(dst[off - 1]) != NUL)
  {
    ghost var before := dst[..];
    Memset(dst, off, size);
    Strncpy(dst, off, src, size - 1);
    ClearedThenCopied(before, off, size, Truncated(src, size - 1));
    if dst[off + size - 2] != NUL && SourceAt(src, size - 1) != NUL {
      return 1;
    }
    return 0;
  }

  /** Copying "a" into a single cell that follows a NUL cuts it off and still reports that it fitted. */
  method SingleCellExample(dst: array<char>) returns (r: int)
    requires dst.Length == 2 && dst[0] == NUL
    modifies dst
    ensures Holds(dst[..], 1, 1, "") && |"a"| > 1 - 1 && r == 0
  {
    r := SafeStrcpy(dst, 1, 1, "a");
    assert dst[1] == NUL;
  }

  // ---------- safe_strcat ----------

  /** Filling in a tail behind the text a buffer holds. */
  lemma FilledBehind(all: seq<char>, off: nat, size: nat, had: string, src: string)
    requires off + size <= |all| && |had| + 1 <= size && IsText(had) && IsText(src)
    requires forall i | 0 <= i < |had| :: all[off + i] == had[i]
    ensures var after := Filled(all, off + |had|, size - |had|, Truncated(src, size - |had| - 1));
            OnlyWithin(all, after, off, size) && Holds(after, off, size, Truncated(had + src, size - 1))
  {
    var kept := Truncated(src, size - |had| - 1);
    assert Truncated(had + src, size - 1) == had + kept;
  }

  /** Appends as much of the source as fits to the string `had` that the buffer holds.  It returns 1 when
      something was cut off, and also, whatever the source, when the buffer is already full. */
  method SafeStrcat(dst: array<char>, off: nat, size: nat, src: string, ghost had: string) returns (r: int)
    requires Holds(dst[..], off, size, had) && IsText(src)
    modifies dst
    ensures OnlyWithin(old(dst[..]), dst[..], off, size)
    ensures Holds(dst[..], off, size, Truncated(had + src, size - 1))
    ensures r == 0 || r == 1
    ensures r == 1 <==> |had| + |src| > size - 1 || |had| == size - 1
    ensures (r == 1 <==> |had| + |src| > size - 1) <==> !(|had| == size - 1 && src == "")
  {
    var len := Strlen(dst, off, size, had);
    if len >= size - 1 {
      FullKeeps(had, src, size - 1);
      return 1;
    }
    r := CopyBehind(dst, off, size, len, src, had);
  }

  lemma FullKeeps(had: string, src: string, room: nat)
    requires |had| == room
    ensures Truncated(had + src, room) == had
  {
  }

  /** The inner copy of an append, behind the `len` characters already there; its size is at least 2. */
  method CopyBehind(dst: array<char>, off: nat, size: nat, len: nat, src: string, ghost had: string)
    returns (r: int)
    requires Holds(dst[..], off, size, had) && IsText(src) && len == |had| && size - len >= 2
    modifies dst
    ensures OnlyWithin(old(dst[..]), dst[..], off, size)
    ensures Holds(dst[..], off, size, Truncated(had + src, size - 1))
    ensures r == 0 || r == 1
    ensures r == 1 <==> |had| + |src| > size - 1
  {
    FilledBehind(dst[..], off, size, had, src);
    r := SafeStrcpy(dst, off + len, size - len, src);
  }

  /** What a buffer that held `had` and has room for `room` characters holds after some appends, and what
      they reported. */
  ghost predicate AppendedSoFar(had: string, parts: seq<string>, room: nat, text: string, lost: bool) {
    && text == Truncated(had + Concatenated(parts), room)
    && (!lost ==> |text| == |had| + |Concatenated(parts)|)
    && (parts != [] && |had| == room ==> lost)
    && (parts == [] ==> !lost)
  }

  lemma NextAppend(had: string, parts: seq<string>, i: nat, room: nat, text: string, lost: bool, r: int)
    requires i < |parts| && |had| <= room && AppendedSoFar(had, parts[..i], room, text, lost)
    requires r == 1 <==> |text| + |parts[i]| > room || |text| == room
    ensures AppendedSoFar(had, parts[..i + 1], room, Truncated(text + parts[i], room), lost || r == 1)
  {
    NextPart(had, parts, i, room);
  }

  lemma WithinTwice(a: seq<char>, b: seq<char>, c: seq<char>, off: nat, size: nat)
    requires off + size <= |a| && OnlyWithin(a, b, off, size) && OnlyWithin(b, c, off, size)
    ensures OnlyWithin(a, c, off, size)
  {
  }

  /** Any number of appends keeps the longest prefix that fits. */
  method AppendAll(dst: array<char>, off: nat, size: nat, more: seq<string>, ghost had: string)
    returns (lost: bool, ghost text: string)
    requires Holds(dst[..], off, size, had)
    requires forall i | 0 <= i < |more| :: IsText(more[i])
    modifies dst
    ensures OnlyWithin(old(dst[..]), dst[..], off, size) && Holds(dst[..], off, size, text)
    ensures AppendedSoFar(had, more, size - 1, text, lost)
  {
    ghost var before := dst[..];
    lost, text := false, had;
    assert had + Concatenated(more[..0]) == had;
    for i := 0 to |more|
      invariant OnlyWithin(before, dst[..], off, size) && Holds(dst[..], off, size, text)
      invariant AppendedSoFar(had, more[..i], size - 1, text, lost)
    {
      ghost var now := dst[..];
      var r := SafeStrcat(dst, off, size, more[i], text);
      WithinTwice(before, now, dst[..], off, size);
      NextAppend(had, more, i, size - 1, text, lost, r);
      lost, text := lost || r == 1, Truncated(text + more[i], size - 1);
    }
    assert more[..|more|] == more;
  }

  /** One copy followed by any number of appends: the buffer ends up with the longest prefix of all the
      sources together that fits.  "If no call reported a loss there was none" holds exactly unless the
      copy, alone, loses a source to a single cell that follows a NUL. */
  method CopyAndAppend(dst: array<char>, off: nat, size: nat, first: string, more: seq<string>)
    returns (lost: bool)
    requires 1 <= size && 2 <= off + size <= dst.Length && IsText(first)
    requires forall i | 0 <= i < |more| :: IsText(more[i])
    modifies dst
    ensures OnlyWithin(old(dst[..]), dst[..], off, size)
    ensures Holds(dst[..], off, size, Truncated(Concatenated([first] + more), size - 1))
    ensures (!lost ==> |Concatenated([first] + more)| <= size - 1)
            <==> (size >= 2 || more != [] || first == "" || old(dst[off - 1]) != NUL)
  {
    ghost var before := dst[..];
    ghost var guarded := size >= 2 || before[off - 1] != NUL;
    FilledBehind(before, off, size, "", first);
    var r := SafeStrcpy(dst, off, size, first);
    ghost var copied := dst[..];
    assert "" + first == first;
    ghost var text;
    lost, text := AppendAll(dst, off, size, more, Truncated(first, size - 1));
    WithinTwice(before, copied, dst[..], off, size);
    CopiedAndAppended(first, more, size - 1, guarded, r, text, lost);
    lost := lost || r == 1;
  }

  /** A copy, which returned `r`, and the appends after it, which reported `lost`. */
  lemma CopiedAndAppended(
    first: string, more: seq<string>, room: nat, guarded: bool, r: int, text: string, lost: bool)
    requires room >= 1 ==> guarded
    requires r == 1 <==> |first| > room && guarded
    requires AppendedSoFar(Truncated(first, room), more, room, text, lost)
    ensures text == Truncated(Concatenated([first] + more), room)
    ensures (!(lost || r == 1) ==> |Concatenated([first] + more)| <= room)
            <==> (guarded || more != [] || first == "")
  {
    AllParts(first, more, room);
  }

  /** Appending nothing never changes the text, and is reported as a truncation exactly when the buffer is
      full. */
  method AppendNothing(dst: array<char>, off: nat, size: nat, ghost had: string) returns (r: int)
    requires Holds(dst[..], off, size, had)
    modifies dst
    ensures Holds(dst[..], off, size, had)
    ensures r == 1 <==> |had| == size - 1
  {
    r := SafeStrcat(dst, off, size, "", had);
    assert Truncated(had + "", size - 1) == had;
  }

  /** The full buffer "a" of two cells: appending "" loses nothing and returns 1. */
  method FullBufferExample(dst: array<char>) returns (r: int)
    requires dst[..] == ['a', NUL]
    modifies dst
    ensures Holds(dst[..], 0, 2, "a") && |"a" + ""| <= 2 - 1 && r == 1
  {
    r := AppendNothing(dst, 0, 2, "a");
  }
}
