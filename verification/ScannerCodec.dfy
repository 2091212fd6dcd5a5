/** Saving and restoring the state of the shell scanner: the glob depth and the stack of heredocs. */
module ScannerCodec {

  import opened Collections

  type byte = x: int | 0 <= x < 256

  type uint32 = x: int | 0 <= x < 0x1_0000_0000

  const BUFFER_SIZE := 1024

  /** A growable string: its bytes and how many it has room for. */
  datatype Str = Str(cap: nat, bytes: seq<byte>) {
    ghost predicate Ok() {
      |bytes| <= cap && |bytes| < 0x1_0000_0000
    }
  }

  datatype Heredoc = Heredoc(isRaw: bool, started: bool, allowsIndent: bool, delimiter: Str, leadingWord: Str)

  const BLANK := Heredoc(false, false, false, Str(16, []), Str(16, []))

  /** The part of a heredoc that is saved. */
  datatype Saved = Saved(isRaw: bool, started: bool, allowsIndent: bool, delimiter: seq<byte>)

  function Save(h: Heredoc): Saved {
    Saved(h.isRaw, h.started, h.allowsIndent, h.delimiter.bytes)
  }

  function SaveAll(hs: seq<Heredoc>): (r: seq<Saved>)
    ensures |r| == |hs| && forall i :: 0 <= i < |r| ==> r[i] == Save(hs[i])
  {
    seq(|hs|, i requires 0 <= i < |hs| => Save(hs[i]))
  }

  // ----- the byte format -----

  function Flag(b: bool): byte {
    if b then 1 else 0
  }

  /** Four bytes, least significant first. */
  function Word(n: uint32): (r: seq<byte>)
    ensures |r| == 4
  {
    [n % 256, n / 256 % 256, n / 65536 % 256, n / 16777216]
  }

  function FromWord(w: seq<byte>): uint32
    requires |w| == 4
  {
    var a: int, b: int, c: int, d: int := w[0], w[1], w[2], w[3];
    a + 256 * b + 65536 * c + 16777216 * d
  }

  lemma WordRoundTrip(n: uint32)
    ensures FromWord(Word(n)) == n
  {
    assert n / 65536 == n / 256 / 256 && n / 16777216 == n / 65536 / 256;
  }

  predicate Short(s: Saved) {
    |s.delimiter| < 0x1_0000_0000
  }

  predicate AllShort(hs: seq<Saved>) {
    forall i :: 0 <= i < |hs| ==> Short(hs[i])
  }

  function Encode(s: Saved): (r: seq<byte>)
    requires Short(s)
    ensures |r| == 7 + |s.delimiter|
  {
    [Flag(s.isRaw), Flag(s.started), Flag(s.allowsIndent)] + Word(|s.delimiter|) + s.delimiter
  }

  /** The bytes of one heredoc: three flags of one byte, the length of the delimiter in four bytes from the least
      significant on, and the delimiter. */
  lemma EncodedAs(s: Saved)
    requires Short(s)
    ensures var r := Encode(s);
            && r[0] == (if s.isRaw then 1 else 0) && r[1] == (if s.started then 1 else 0)
            && r[2] == (if s.allowsIndent then 1 else 0)
            && r[3] as int + 0x100 * r[4] as int + 0x1_0000 * r[5] as int + 0x100_0000 * r[6] as int == |s.delimiter|
            && r[7..] == s.delimiter
  {
    var r, w := Encode(s), Word(|s.delimiter|);
    WordRoundTrip(|s.delimiter|);
    assert r[3] == w[0] && r[4] == w[1] && r[5] == w[2] && r[6] == w[3];
  }

  function EncodeAll(hs: seq<Saved>): seq<byte>
    requires AllShort(hs)
  {
    if hs == [] then [] else EncodeAll(hs[..|hs| - 1]) + Encode(hs[|hs| - 1])
  }

  /** Decodes n heredocs, which must use up all the bytes. */
  function DecodeAll(bytes: seq<byte>, n: nat): Option<seq<Saved>>
    decreases n
  {
    if n == 0 then (if bytes == [] then Some([]) else None)
    else if |bytes| < 7 then None
    else
      var len := FromWord(bytes[3..7]);
      if |bytes| < 7 + len then None
      else
        var first := Saved(bytes[0] != 0, bytes[1] != 0, bytes[2] != 0, bytes[7..7 + len]);
        var rest := DecodeAll(bytes[7 + len..], n - 1);
        if rest.None? then None else Some([first] + rest.value)
  }

  lemma DecodeOne(s: Saved, bytes: seq<byte>, n: nat)
    requires Short(s)
    ensures DecodeAll(Encode(s) + bytes, n + 1) ==
            var rest := DecodeAll(bytes, n); if rest.None? then None else Some([s] + rest.value)
  {
    var b := Encode(s) + bytes;
    WordRoundTrip(|s.delimiter|);
    assert b[3..7] == Word(|s.delimiter|);
    assert b[7..7 + |s.delimiter|] == s.delimiter;
    assert b[7 + |s.delimiter|..] == bytes;
  }

  lemma {:induction false} EncodeFront(hs: seq<Saved>)
    requires AllShort(hs) && hs != []
    ensures EncodeAll(hs) == Encode(hs[0]) + EncodeAll(hs[1..])
  {
    hide Encode;
    var f, last := hs[..|hs| - 1], hs[|hs| - 1];
    if f == [] {
      assert EncodeAll(hs) == [] + Encode(last);
    } else {
      EncodeFront(f);
      var mid := hs[1..];
      assert mid[..|mid| - 1] == f[1..] && mid[|mid| - 1] == last;
      assert EncodeAll(hs) == Encode(hs[0]) + EncodeAll(f[1..]) + Encode(last);
      assert EncodeAll(mid) == EncodeAll(f[1..]) + Encode(last);
    }
  }

  /** Decoding the encoding gives the heredocs back and leaves no byte over. */
  lemma {:induction false} DecodeEncode(hs: seq<Saved>)
    requires AllShort(hs)
    ensures DecodeAll(EncodeAll(hs), |hs|) == Some(hs)
  {
    hide Encode;
    if hs != [] {
      DecodeEncode(hs[1..]);
      EncodeFront(hs);
      DecodeOne(hs[0], EncodeAll(hs[1..]), |hs| - 1);
      assert [hs[0]] + hs[1..] == hs;
    }
  }

  // ----- the size guard -----

  /** The guard lets heredoc i through, given what the earlier ones have taken. */
  predicate Passes(hs: seq<Saved>, i: nat)
    requires AllShort(hs) && i < |hs|
  {
    |hs[i].delimiter| + 3 + 2 + |EncodeAll(hs[..i])| < BUFFER_SIZE
  }

  ghost predicate PassUpTo(hs: seq<Saved>, n: nat)
    requires AllShort(hs) && n <= |hs|
  {
    forall i :: 0 <= i < n ==> Passes(hs, i)
  }

  /** All heredocs pass, so the state is written out in full. */
  ghost predicate Accepted(hs: seq<Saved>)
    requires AllShort(hs)
  {
    PassUpTo(hs, |hs|)
  }

  lemma {:induction false} PrefixSize(hs: seq<Saved>, n: nat)
    requires AllShort(hs) && n <= |hs|
    ensures 7 * n <= |EncodeAll(hs[..n])|
    ensures 0 < n ==> |EncodeAll(hs[..n])| == |EncodeAll(hs[..n - 1])| + 7 + |hs[n - 1].delimiter|
  {
    if 0 < n {
      PrefixSize(hs, n - 1);
      assert hs[..n][..n - 1] == hs[..n - 1];
    }
  }

  lemma PassNone(hs: seq<Saved>)
    requires AllShort(hs)
    ensures PassUpTo(hs, 0) && EncodeAll(hs[..0]) == []
  {
  }

  lemma PassOne(hs: seq<Saved>, i: nat)
    requires AllShort(hs) && i < |hs| && PassUpTo(hs, i)
    ensures EncodeAll(hs[..i + 1]) == EncodeAll(hs[..i]) + Encode(hs[i])
    ensures if |hs[i].delimiter| + 3 + 2 + |EncodeAll(hs[..i])| < BUFFER_SIZE then PassUpTo(hs, i + 1)
            else !Passes(hs, i) && !Accepted(hs)
  {
    assert hs[..i + 1][..i] == hs[..i];
    assert !Passes(hs, i) ==> !Accepted(hs);
  }

  /** The guard allows for three of the seven bytes ahead of a delimiter, so what passes can take up to three
      bytes more than the buffer size; and no more than 146 heredocs pass. */
  lemma PassedSize(hs: seq<Saved>, n: nat)
    requires AllShort(hs) && n <= |hs| && PassUpTo(hs, n)
    ensures 2 + |EncodeAll(hs[..n])| <= BUFFER_SIZE + 3
    ensures n <= 146
  {
    PrefixSize(hs, n);
    if 0 < n {
      assert Passes(hs, n - 1);
    }
  }

  /** The bound is reached: one heredoc with a delimiter of 1018 bytes. */
  lemma PassedSizeReached(s: Saved)
    requires |s.delimiter| == 1018
    ensures AllShort([s]) && Accepted([s]) && 2 + |EncodeAll([s])| == 1027
  {
    assert [s][..0] == [];
    assert EncodeAll([s]) == [] + Encode(s);
  }

  /** Everything that is written, also ahead of a heredoc that is refused, stays within the length. */
  ghost predicate Fits(hs: seq<Saved>, length: nat)
    requires AllShort(hs)
  {
    2 <= length && forall n :: 0 <= n <= |hs| && PassUpTo(hs, n) ==> 2 + |EncodeAll(hs[..n])| <= length
  }

  lemma {:induction false} PrefixGrows(hs: seq<Saved>, n: nat, m: nat)
    requires AllShort(hs) && n <= m <= |hs|
    ensures |EncodeAll(hs[..n])| <= |EncodeAll(hs[..m])|
  {
    if n < m {
      PrefixSize(hs, m);
      PrefixGrows(hs, n, m - 1);
    }
  }

  /** Where the writing stops after n heredocs, it fits if those do. */
  lemma FitsIfStopped(hs: seq<Saved>, n: nat, length: nat)
    requires AllShort(hs) && n <= |hs| && 2 <= length && 2 + |EncodeAll(hs[..n])| <= length
    requires n == |hs| || !Passes(hs, n)
    ensures Fits(hs, length)
  {
    forall m | 0 <= m <= |hs| && PassUpTo(hs, m) ensures 2 + |EncodeAll(hs[..m])| <= length {
      if m <= n {
        PrefixGrows(hs, m, n);
      }
    }
  }

  /** Three bytes more than the buffer size hold whatever is written. */
  lemma FitsInThreeMore(hs: seq<Saved>)
    requires AllShort(hs)
    ensures Fits(hs, BUFFER_SIZE + 3)
  {
    forall n | 0 <= n <= |hs| && PassUpTo(hs, n) ensures 2 + |EncodeAll(hs[..n])| <= BUFFER_SIZE + 3 {
      PassedSize(hs, n);
    }
  }

  /** What the guard compares for heredoc i: what the earlier ones have taken, and its delimiter. */
  function Load(hs: seq<Saved>, i: nat): nat
    requires AllShort(hs) && i < |hs|
  {
    2 + |EncodeAll(hs[..i])| + |hs[i].delimiter|
  }

  /** The guard refuses a load from 1021 on and a load up to 1017 fits, so writing stays within the 1024 bytes
      exactly when no heredoc that is reached has a load of 1018, 1019 or 1020. */
  lemma FitsExactly(hs: seq<Saved>)
    requires AllShort(hs)
    ensures Fits(hs, 1024) <==>
            forall i :: 0 <= i < |hs| && PassUpTo(hs, i) ==> !(1018 <= Load(hs, i) <= 1020)
  {
    PassNone(hs);
    forall i | 0 <= i < |hs| && PassUpTo(hs, i)
      ensures PassUpTo(hs, i + 1) <==> Load(hs, i) <= 1020
      ensures 2 + |EncodeAll(hs[..i + 1])| == Load(hs, i) + 7
    {
      PrefixSize(hs, i + 1);
      assert PassUpTo(hs, i + 1) <==> Passes(hs, i);
    }
    if forall i :: 0 <= i < |hs| && PassUpTo(hs, i) ==> !(1018 <= Load(hs, i) <= 1020) {
      forall n | 0 <= n <= |hs| && PassUpTo(hs, n) ensures 2 + |EncodeAll(hs[..n])| <= BUFFER_SIZE {
        if 0 < n {
          assert PassUpTo(hs, n - 1);
        }
      }
    }
  }

  /** The writing can leave the 1024 bytes although the state is refused in the end: the first of two heredocs has
      a delimiter of 1018 bytes, and the second is any. */
  lemma RefusedTooLate(a: Saved, b: Saved)
    requires |a.delimiter| == 1018 && Short(b)
    ensures AllShort([a, b]) && !Accepted([a, b]) && !Fits([a, b], 1024)
  {
    var hs := [a, b];
    PassNone(hs);
    PrefixSize(hs, 1);
    assert Load(hs, 0) == 1020;
    FitsExactly(hs);
    assert !Passes(hs, 1);
  }

  // ----- the scanner -----

  /** Heredocs that are there stay, with their leading words, and no delimiter loses room. */
  ghost predicate KeepsRest(hs: seq<Heredoc>, hs': seq<Heredoc>) {
    && |hs| <= |hs'|
    && forall i :: 0 <= i < |hs| ==>
                     hs'[i].leadingWord == hs[i].leadingWord && hs[i].delimiter.cap <= hs'[i].delimiter.cap
  }

  ghost predicate HeredocsOk(hs: seq<Heredoc>) {
    forall i :: 0 <= i < |hs| ==> hs[i].delimiter.Ok() && hs[i].leadingWord.Ok()
  }

  /** Writes bytes into the buffer at an offset, as memcpy does. */
  method Copy(buffer: array<byte>, at: nat, bytes: seq<byte>)
    requires at + |bytes| <= buffer.Length
    modifies buffer
    ensures buffer[..at + |bytes|] == old(buffer[..at]) + bytes
  {
    for k := 0 to |bytes|
      invariant buffer[..at + k] == old(buffer[..at]) + bytes[..k]
    {
      buffer[at + k] := bytes[k];
    }
    assert bytes[..|bytes|] == bytes;
  }

  method Write(buffer: array<byte>, size: nat, h: Heredoc)
    requires Short(Save(h)) && size + 7 + |h.delimiter.bytes| <= buffer.Length
    modifies buffer
    ensures buffer[..size + 7 + |h.delimiter.bytes|] == old(buffer[..size]) + Encode(Save(h))
  {
    Copy(buffer, size, [Flag(h.isRaw), Flag(h.started), Flag(h.allowsIndent)]);
    Copy(buffer, size + 3, Word(|h.delimiter.bytes|));
    Copy(buffer, size + 7, h.delimiter.bytes);
  }

  /** Reads the heredoc at an offset, if it ends within the bytes. */
  method Read(buffer: seq<byte>, size: nat, ghost n: nat) returns (r: Option<Saved>)
    requires size <= |buffer| && 0 < n
    ensures r.None? ==> DecodeAll(buffer[size..], n).None?
    ensures r.Some? ==> Short(r.value)
    ensures r.Some? ==> var next := size + 7 + |r.value.delimiter|;
                        next <= |buffer| && DecodeAll(buffer[size..], n) ==
                                            Prepended([r.value], DecodeAll(buffer[next..], n - 1))
  {
    if |buffer| < size + 7 {
      return None;
    }
    var bytes := buffer[size..];
    var len: int := FromWord(bytes[3..7]);
    if |bytes| < 7 + len {
      return None;
    }
    assert bytes[7 + len..] == buffer[size + 7 + len..];
    r := Some(Saved(bytes[0] != 0, bytes[1] != 0, bytes[2] != 0, bytes[7..7 + len]));
  }

  class Scanner {
    var lastGlobParenDepth: byte
    var heredocs: seq<Heredoc>

    ghost predicate Valid()
      reads this
    {
      HeredocsOk(heredocs)
    }

    /** Writes the state into the buffer and gives its size, or 0 where a heredoc fails the guard. The result is None
        where a byte would be written past the end of the buffer. */
    method Serialize(buffer: array<byte>) returns (r: Option<nat>)
      requires Valid()
      modifies buffer
      ensures r.Some? <==> Fits(SaveAll(heredocs), buffer.Length)
      ensures r.Some? ==> (r.value == 0 <==> !Accepted(SaveAll(heredocs)))
      ensures r.Some? && r.value != 0 ==>
                && r.value <= buffer.Length && |heredocs| <= 146
                && buffer[..r.value] == [lastGlobParenDepth, |heredocs|] + EncodeAll(SaveAll(heredocs))
    {
      hide Encode, EncodeAll, PassUpTo, Passes;
      ghost var hs := SaveAll(heredocs);
      if buffer.Length < 2 {
        return None;
      }
      buffer[0] := lastGlobParenDepth;
      buffer[1] := |heredocs| % 256;
      var size := 2;
      PassNone(hs);
      for i := 0 to |heredocs|
        invariant PassUpTo(hs, i) && size == 2 + |EncodeAll(hs[..i])| <= buffer.Length
        invariant buffer[..size] == [lastGlobParenDepth, |heredocs| % 256] + EncodeAll(hs[..i])
      {
        var h := heredocs[i];
        PassOne(hs, i);
        if |h.delimiter.bytes| + 3 + size >= BUFFER_SIZE {
          FitsIfStopped(hs, i, buffer.Length);
          return Some(0);
        }
        if buffer.Length < size + 7 + |h.delimiter.bytes| {
          return None;
        }
        Write(buffer, size, h);
        size := size + 7 + |h.delimiter.bytes|;
      }
      assert hs[..|hs|] == hs;
      PassedSize(hs, |hs|);
      FitsIfStopped(hs, |hs|, buffer.Length);
      r := Some(size);
    }

    method Reset()
      requires Valid()
      modifies this`heredocs
      ensures Valid() && |heredocs| == |old(heredocs)|
      ensures forall i :: 0 <= i < |heredocs| ==> Save(heredocs[i]) == Saved(false, false, false, [])
      ensures KeepsRest(old(heredocs), heredocs)
    {
      for i := 0 to |heredocs|
        invariant Valid() && |heredocs| == |old(heredocs)| && KeepsRest(old(heredocs), heredocs)
        invariant forall j :: 0 <= j < i ==> Save(heredocs[j]) == Saved(false, false, false, [])
      {
        var h := heredocs[i];
        heredocs := heredocs[i := h.(isRaw := false, started := false, allowsIndent := false,
                                     delimiter := h.delimiter.(bytes := []))];
      }
    }

    /** Overwrites heredoc i, which is created if the scanner has no more than i of them. */
    method Restore(i: nat, s: Saved)
      requires Valid() && i <= |heredocs| && Short(s)
      modifies this`heredocs
      ensures Valid() && |heredocs| == (if i < |old(heredocs)| then |old(heredocs)| else i + 1)
      ensures Save(heredocs[i]) == s
      ensures forall j :: 0 <= j < |old(heredocs)| && j != i ==> heredocs[j] == old(heredocs)[j]
      ensures KeepsRest(old(heredocs), heredocs)
    {
      if i == |heredocs| {
        heredocs := heredocs + [BLANK];
      }
      var h := heredocs[i];
      var cap := if h.delimiter.cap < |s.delimiter| then |s.delimiter| else h.delimiter.cap;
      heredocs := heredocs[i := h.(isRaw := s.isRaw, started := s.started, allowsIndent := s.allowsIndent,
                                   delimiter := Str(cap, s.delimiter))];
    }

    /** Reads back what was saved. The result is false where the bytes are not a complete encoding. */
    method Deserialize(buffer: seq<byte>) returns (ok: bool)
      requires Valid()
      modifies this
      ensures Valid() && KeepsRest(old(heredocs), heredocs)
      ensures buffer == [] ==>
                ok && lastGlobParenDepth == old(lastGlobParenDepth) && |heredocs| == |old(heredocs)| &&
                forall i :: 0 <= i < |heredocs| ==> Save(heredocs[i]) == Saved(false, false, false, [])
      ensures buffer != [] ==> (ok <==> 2 <= |buffer| && DecodeAll(buffer[2..], buffer[1]).Some?)
      ensures buffer != [] && ok ==>
                && lastGlobParenDepth == buffer[0]
                && Restored(old(heredocs), heredocs, DecodeAll(buffer[2..], buffer[1]).value)
    {
      if buffer == [] {
        Reset();
        return true;
      }
      if |buffer| < 2 {
        return false;
      }
      lastGlobParenDepth := buffer[0];
      ok := RestoreAll(buffer);
    }

    method RestoreAll(buffer: seq<byte>) returns (ok: bool)
      requires Valid() && 2 <= |buffer|
      modifies this`heredocs
      ensures Valid() && (ok <==> DecodeAll(buffer[2..], buffer[1]).Some?) && KeepsRest(old(heredocs), heredocs)
      ensures ok ==> Restored(old(heredocs), heredocs, DecodeAll(buffer[2..], buffer[1]).value)
    {
      hide DecodeAll, Prepended, Restored, Save, HeredocsOk, Short;
      var count := buffer[1];
      var size: nat := 2;
      ghost var done: seq<Saved> := [];
      ghost var all := DecodeAll(buffer[2..], count);
      PrependNothing(all);
      RestoredNothing(heredocs);
      for i := 0 to count
        invariant Valid() && size <= |buffer| && |done| == i <= |heredocs|
        invariant Prepended(done, DecodeAll(buffer[size..], count - i)) == all
        invariant Restored(old(heredocs), heredocs, done) && KeepsRest(old(heredocs), heredocs)
      {
        var s := Read(buffer, size, count - i);
        if s.None? {
          PrependNone(done, DecodeAll(buffer[size..], count - i));
          return false;
        }
        PrependTwice(done, s.value, DecodeAll(buffer[size + 7 + |s.value.delimiter|..], count - i - 1));
        ghost var mid := heredocs;
        Restore(i, s.value);
        RestoredNext(old(heredocs), mid, heredocs, done, s.value);
        size := size + 7 + |s.value.delimiter|;
        done := done + [s.value];
      }
      DecodeEnd(buffer[size..], done);
      ok := size == |buffer|;
    }
  }

  ghost function Prepended(done: seq<Saved>, rest: Option<seq<Saved>>): Option<seq<Saved>> {
    if rest.None? then None else Some(done + rest.value)
  }

  lemma PrependNothing(rest: Option<seq<Saved>>)
    ensures Prepended([], rest) == rest
  {
    assert rest.Some? ==> [] + rest.value == rest.value;
  }

  lemma PrependTwice(done: seq<Saved>, s: Saved, rest: Option<seq<Saved>>)
    ensures Prepended(done, Prepended([s], rest)) == Prepended(done + [s], rest)
  {
    assert rest.Some? ==> done + ([s] + rest.value) == done + [s] + rest.value;
  }

  lemma PrependNone(done: seq<Saved>, rest: Option<seq<Saved>>)
    requires rest.None?
    ensures Prepended(done, rest).None?
  {
  }

  lemma DecodeEnd(bytes: seq<byte>, done: seq<Saved>)
    ensures Prepended(done, DecodeAll(bytes, 0)) == if bytes == [] then Some(done) else None
  {
    assert done + [] == done;
  }

  /** The first heredocs are those read; the scanner's further ones, if it had more, are left as they were. */
  ghost predicate Restored(before: seq<Heredoc>, after: seq<Heredoc>, saved: seq<Saved>) {
    && |after| == (if |before| < |saved| then |saved| else |before|)
    && (forall i :: 0 <= i < |saved| ==> Save(after[i]) == saved[i])
    && (forall i :: |saved| <= i < |before| ==> after[i] == before[i])
  }

  lemma RestoredNothing(hs: seq<Heredoc>)
    ensures Restored(hs, hs, [])
  {
  }

  lemma RestoredNext(before: seq<Heredoc>, mid: seq<Heredoc>, after: seq<Heredoc>, done: seq<Saved>, s: Saved)
    requires Restored(before, mid, done) && |done| < |after| == if |done| < |mid| then |mid| else |done| + 1
    requires Save(after[|done|]) == s && forall j :: 0 <= j < |mid| && j != |done| ==> after[j] == mid[j]
    ensures Restored(before, after, done + [s])
  {
  }

  /** Restoring gives exactly the saved heredocs if and only if the scanner held no more than were saved. */
  lemma RestoredExactly(before: seq<Heredoc>, after: seq<Heredoc>, saved: seq<Saved>)
    requires Restored(before, after, saved)
    ensures SaveAll(after) == saved <==> |before| <= |saved|
  {
    if |before| <= |saved| {
      assert SaveAll(after) == saved;
    }
  }

  /** Saving a scanner and restoring it, into the same one or another, through a buffer. Nothing is restored where
      the buffer is too short for what is written. */
  method RoundTrip(from: Scanner, to: Scanner, buffer: array<byte>) returns (r: Option<nat>)
    requires from.Valid() && to.Valid()
    modifies to, buffer
    ensures to.Valid()
    ensures r.Some? <==> Fits(SaveAll(old(from.heredocs)), buffer.Length)
    ensures r.None? ==> to.heredocs == old(to.heredocs) && to.lastGlobParenDepth == old(to.lastGlobParenDepth)
    ensures r.Some? ==> (r.value != 0 <==> Accepted(SaveAll(old(from.heredocs))))
    ensures r.Some? && r.value != 0 ==>
              && to.lastGlobParenDepth == old(from.lastGlobParenDepth)
              && (SaveAll(to.heredocs) == SaveAll(old(from.heredocs)) <==>
                  |old(to.heredocs)| <= |old(from.heredocs)|)
    ensures r == Some(0) ==>
              && |to.heredocs| == |old(to.heredocs)|
              && forall i :: 0 <= i < |to.heredocs| ==> Save(to.heredocs[i]) == Saved(false, false, false, [])
  {
    r := from.Serialize(buffer);
    if r.None? {
      return;
    }
    ghost var hs := SaveAll(from.heredocs);
    if r.value != 0 {
      assert buffer[..r.value][2..] == EncodeAll(hs);
      DecodeEncode(hs);
    }
    var ok := to.Deserialize(buffer[..r.value]);
    assert ok;
    if r.value != 0 {
      RestoredExactly(old(to.heredocs), to.heredocs, hs);
    }
  }
}
