/**
 A diff as the list of its files, each a run of records: taking records apart
 into files and putting files back into records are inverse to each other.
 */
module Structure {
  import opened Text
  import opened Header
  import opened Quoting
  import opened Parser

  /* ---- records and bytes ---- */

  /** Every record ended by a newline, as all the diff's views are written. */
  function Emit(recs: seq<string>): string {
    if recs == [] then "" else Emit(recs[..|recs| - 1]) + recs[|recs| - 1] + "\n"
  }

  lemma {:induction false} EmitAppend(a: seq<string>, b: seq<string>)
    ensures Emit(a + b) == Emit(a) + Emit(b)
  {
    if b == [] {
      assert a + b == a;
    } else {
      var front := b[..|b| - 1];
      assert (a + b)[..|a + b| - 1] == a + front;
      EmitAppend(a, front);
    }
  }

  lemma {:induction false} EmitIsJoin(recs: seq<string>)
    requires recs != []
    ensures Emit(recs) == Join(recs, '\n') + "\n"
  {
    var front, last := recs[..|recs| - 1], recs[|recs| - 1];
    if front != [] {
      EmitIsJoin(front);
      assert recs == front + [last];
      JoinAppend(front, '\n', [last]);
    }
  }

  /** Reading back what was written gives the records that were written. */
  lemma {:induction false} RecordsInvertEmit(recs: seq<string>)
    requires Free(recs, '\n')
    ensures Records(Emit(recs)) == recs
  {
    if recs != [] {
      hide Split, Join, Emit;
      EmitIsJoin(recs);
      var raw := Join(recs, '\n') + "\n";
      assert raw[..|raw| - 1] == Join(recs, '\n');
      SplitJoin(recs, '\n');
    }
  }

  lemma {:induction false} RecordsFree(raw: string)
    ensures Free(Records(raw), '\n')
  {
    if raw != "" {
      SplitFree(if raw[|raw| - 1] == '\n' then raw[..|raw| - 1] else raw, '\n');
    }
  }

  /** Writing back what was read gives the input, ended by a newline. */
  lemma {:induction false} EmitInvertsRecords(raw: string)
    ensures Emit(Records(raw)) == if raw == "" || raw[|raw| - 1] == '\n' then raw else raw + "\n"
  {
    if raw != "" {
      hide Split, Join, Emit;
      EmitIsJoin(Records(raw));
      JoinSplit(if raw[|raw| - 1] == '\n' then raw[..|raw| - 1] else raw, '\n');
    }
  }

  /* ---- files and records ---- */

  function FlatHunk(h: RawHunk): seq<string> { [h.header] + h.body }

  function FlatHunks(hs: seq<RawHunk>): seq<string> {
    if hs == [] then [] else FlatHunks(hs[..|hs| - 1]) + FlatHunk(hs[|hs| - 1])
  }

  function Flat(c: Chunk): seq<string> { c.prologue + FlatHunks(c.hunks) }

  function FlatAll(cs: seq<Chunk>): seq<string> {
    if cs == [] then [] else FlatAll(cs[..|cs| - 1]) + Flat(cs[|cs| - 1])
  }

  lemma {:induction false} FlatHunksSnoc(hs: seq<RawHunk>, h: RawHunk)
    ensures FlatHunks(hs + [h]) == FlatHunks(hs) + FlatHunk(h)
    ensures FlatHunks([]) == []
  {
    assert (hs + [h])[..|hs|] == hs;
  }

  lemma {:induction false} FlatAllSnoc(cs: seq<Chunk>, c: Chunk)
    ensures FlatAll(cs + [c]) == FlatAll(cs) + Flat(c)
    ensures FlatAll([]) == []
  {
    assert (cs + [c])[..|cs|] == cs;
  }

  lemma {:induction false} FlatAllAppend(a: seq<Chunk>, b: seq<Chunk>)
    ensures FlatAll(a + b) == FlatAll(a) + FlatAll(b)
  {
    if b == [] {
      assert a + b == a;
    } else {
      hide Flat;
      var front, last := b[..|b| - 1], b[|b| - 1];
      assert a + b == (a + front) + [last] && b == front + [last];
      FlatAllSnoc(a + front, last);
      FlatAllSnoc(front, last);
      FlatAllAppend(a, front);
    }
  }

  lemma {:induction false} FlatAddTo(c: Chunk, rec: string)
    ensures Flat(AddTo(c, rec)) == Flat(c) + [rec]
  {
    hide FlatHunks;
    if IsHunk(rec) || c.hunks == [] {
      FlatHunksSnoc(c.hunks, RawHunk(rec, []));
    } else {
      var front, h := c.hunks[..|c.hunks| - 1], c.hunks[|c.hunks| - 1];
      assert front + [h] == c.hunks;
      FlatHunksSnoc(front, h);
      FlatHunksSnoc(front, h.(body := h.body + [rec]));
    }
  }

  lemma {:induction false} FlatAddRecord(cs: seq<Chunk>, rec: string)
    requires cs != []
    ensures FlatAll(AddRecord(cs, rec)) == FlatAll(cs) + [rec]
  {
    hide Flat, AddTo, FlatAll, IsGit;
    if IsGit(rec) {
      FlatAllSnoc(cs, Chunk([rec], []));
      FlatOne(rec);
    } else {
      var front, c := cs[..|cs| - 1], cs[|cs| - 1];
      assert front + [c] == cs;
      FlatAllSnoc(front, c);
      FlatAllSnoc(front, AddTo(c, rec));
      FlatAddTo(c, rec);
    }
  }

  /** The sections hold every record, in order. */
  lemma {:induction false} ChunksLoseNothing(recs: seq<string>)
    ensures FlatAll(Chunks(recs)) == recs
  {
    if recs == [] {
      FlatEmpty();
    } else {
      hide AddRecord, FlatAll;
      ChunksLoseNothing(recs[..|recs| - 1]);
      FlatAddRecord(Chunks(recs[..|recs| - 1]), recs[|recs| - 1]);
      assert recs[..|recs| - 1] + [recs[|recs| - 1]] == recs;
    }
  }

  lemma {:induction false} FlatOne(rec: string)
    ensures Flat(Chunk([rec], [])) == [rec]
  {
  }

  /* ---- which chunks can stand where ---- */

  /** Records that open neither a section nor a hunk. */
  ghost predicate Plain(recs: seq<string>) {
    forall k :: 0 <= k < |recs| ==> !IsGit(recs[k]) && !IsHunk(recs[k])
  }

  ghost predicate GoodHunks(hs: seq<RawHunk>) {
    forall k :: 0 <= k < |hs| ==> IsHunk(hs[k].header) && Plain(hs[k].body)
  }

  /** A section opened by its own `diff --git` line. */
  ghost predicate GitChunk(c: Chunk) {
    && c.prologue != [] && IsGit(c.prologue[0]) && Plain(c.prologue[1..])
    && GoodHunks(c.hunks)
  }

  /** What may stand before the first `diff --git` line. */
  ghost predicate Preamble(c: Chunk) { Plain(c.prologue) && GoodHunks(c.hunks) }

  ghost predicate Listed(fs: seq<Chunk>) {
    && (fs != [] ==> fs[0] != EMPTY && (Preamble(fs[0]) || GitChunk(fs[0])))
    && (forall k :: 1 <= k < |fs| ==> GitChunk(fs[k]))
  }

  /** The diff's files: its sections, without an empty one before the first. */
  function Files(recs: seq<string>): seq<Chunk> {
    var cs := Chunks(recs);
    if cs[0] == EMPTY then cs[1..] else cs
  }

  lemma {:induction false} GitIsNotHunk(rec: string)
    ensures !(IsGit(rec) && IsHunk(rec))
  {
    assert IsGit(rec) ==> rec[0] == 'd';
    assert IsHunk(rec) ==> rec[0] == '@';
  }

  lemma {:induction false} GoodAddTo(c: Chunk, rec: string)
    requires !IsGit(rec)
    ensures Preamble(c) ==> Preamble(AddTo(c, rec))
    ensures GitChunk(c) ==> GitChunk(AddTo(c, rec))
  {
    hide IsGit, IsHunk;
    if !IsHunk(rec) && c.hunks == [] && c.prologue != [] {
      assert (c.prologue + [rec])[1..] == c.prologue[1..] + [rec];
    }
  }

  ghost predicate GoodChunks(cs: seq<Chunk>) {
    && cs != [] && Preamble(cs[0])
    && (forall k :: 1 <= k < |cs| ==> GitChunk(cs[k]))
  }

  lemma {:induction false} ChunksGood(recs: seq<string>)
    ensures GoodChunks(Chunks(recs))
  {
    if recs != [] {
      var rec := recs[|recs| - 1];
      var cs := Chunks(recs[..|recs| - 1]);
      ChunksGood(recs[..|recs| - 1]);
      hide IsGit, IsHunk, AddTo, Chunks;
      if IsGit(rec) {
        GitChunkOne(rec);
      } else {
        GoodAddTo(cs[|cs| - 1], rec);
      }
    }
  }

  lemma {:induction false} GitChunkOne(rec: string)
    requires IsGit(rec)
    ensures GitChunk(Chunk([rec], []))
  {
  }

  lemma {:induction false} GitChunkIsNotEmpty(c: Chunk)
    ensures GitChunk(c) ==> c != EMPTY
  {
  }

  lemma {:induction false} FilesListed(recs: seq<string>)
    ensures Listed(Files(recs))
  {
    ChunksGood(recs);
    hide Preamble, IsGit, Plain, GoodHunks, Chunks;
    forall k | 0 <= k < |Chunks(recs)| ensures GitChunk(Chunks(recs)[k]) ==> Chunks(recs)[k] != EMPTY {
      GitChunkIsNotEmpty(Chunks(recs)[k]);
    }
  }

  lemma {:induction false} FilesLoseNothing(recs: seq<string>)
    ensures FlatAll(Files(recs)) == recs
  {
    ChunksLoseNothing(recs);
    var cs := Chunks(recs);
    if cs[0] == EMPTY {
      hide Chunks, FlatAll, Flat;
      assert cs == [EMPTY] + cs[1..];
      FlatAllAppend([EMPTY], cs[1..]);
      FlatEmpty();
    }
  }

  lemma {:induction false} FlatEmpty()
    ensures FlatAll([EMPTY]) == []
  {
    assert [] + [EMPTY] == [EMPTY];
    FlatAllSnoc([], EMPTY);
  }

  /* ---- files written out and read again ---- */

  function AddAll(cs: seq<Chunk>, recs: seq<string>): (r: seq<Chunk>)
    requires cs != []
    ensures r != []
  {
    if recs == [] then cs else AddRecord(AddAll(cs, recs[..|recs| - 1]), recs[|recs| - 1])
  }

  lemma {:induction false} AddAllAppend(cs: seq<Chunk>, a: seq<string>, b: seq<string>)
    requires cs != []
    ensures AddAll(cs, a + b) == AddAll(AddAll(cs, a), b)
  {
    if b == [] {
      assert a + b == a;
    } else {
      hide AddRecord;
      assert (a + b)[..|a + b| - 1] == a + b[..|b| - 1];
      AddAllAppend(cs, a, b[..|b| - 1]);
    }
  }

  lemma {:induction false} ChunksAreAdded(recs: seq<string>)
    ensures Chunks(recs) == AddAll([EMPTY], recs)
  {
    if recs != [] {
      hide AddRecord;
      ChunksAreAdded(recs[..|recs| - 1]);
    }
  }

  lemma {:induction false} AddPrologue(front: seq<Chunk>, c: Chunk, recs: seq<string>)
    requires c.hunks == [] && Plain(recs)
    ensures AddAll(front + [c], recs) == front + [c.(prologue := c.prologue + recs)]
  {
    if recs == [] {
      assert c.prologue + [] == c.prologue;
    } else {
      hide IsGit, IsHunk;
      var rest, rec := recs[..|recs| - 1], recs[|recs| - 1];
      AddPrologue(front, c, rest);
      var d := c.(prologue := c.prologue + rest);
      assert (front + [d])[..|front|] == front;
      assert c.prologue + rest + [rec] == c.prologue + recs by { assert rest + [rec] == recs; }
    }
  }

  lemma {:induction false} AddOne(front: seq<Chunk>, d: Chunk, hs: seq<RawHunk>, g: RawHunk, rec: string)
    requires d.hunks == hs + [g] && !IsGit(rec) && !IsHunk(rec)
    ensures AddRecord(front + [d], rec) == front + [d.(hunks := hs + [g.(body := g.body + [rec])])]
  {
    assert (front + [d])[..|front|] == front;
    assert (hs + [g])[..|hs|] == hs;
  }

  lemma {:induction false} AddBody(front: seq<Chunk>, c: Chunk, hs: seq<RawHunk>, h: RawHunk, recs: seq<string>)
    requires c.hunks == hs + [h] && Plain(recs)
    ensures AddAll(front + [c], recs) == front + [c.(hunks := hs + [h.(body := h.body + recs)])]
  {
    if recs == [] {
      assert h.body + [] == h.body;
    } else {
      hide IsGit, IsHunk;
      var rest, rec := recs[..|recs| - 1], recs[|recs| - 1];
      AddBody(front, c, hs, h, rest);
      var g := h.(body := h.body + rest);
      var d := c.(hunks := hs + [g]);
      AddOne(front, d, hs, g, rec);
      hide AddRecord;
      assert h.body + rest + [rec] == h.body + recs;
    }
  }

  lemma {:induction false} AddHunk(front: seq<Chunk>, c: Chunk, h: RawHunk)
    requires IsHunk(h.header) && Plain(h.body)
    ensures AddAll(front + [c], FlatHunk(h)) == front + [c.(hunks := c.hunks + [h])]
  {
    GitIsNotHunk(h.header);
    hide IsGit, IsHunk;
    var started := c.(hunks := c.hunks + [RawHunk(h.header, [])]);
    AddAllAppend(front + [c], [h.header], h.body);
    assert (front + [c])[..|front|] == front;
    assert AddAll(front + [c], []) == front + [c] && [h.header][..0] == [];
    assert AddAll(front + [c], [h.header]) == front + [started];
    AddBody(front, started, c.hunks, RawHunk(h.header, []), h.body);
    assert [] + h.body == h.body;
  }

  lemma {:induction false} AddHunksStep(front: seq<Chunk>, c: Chunk, rest: seq<RawHunk>, h: RawHunk)
    requires IsHunk(h.header) && Plain(h.body)
    requires AddAll(front + [c], FlatHunks(rest)) == front + [c.(hunks := c.hunks + rest)]
    ensures AddAll(front + [c], FlatHunks(rest + [h])) == front + [c.(hunks := c.hunks + (rest + [h]))]
  {
    hide *;
    FlatHunksSnoc(rest, h);
    AddAllAppend(front + [c], FlatHunks(rest), FlatHunk(h));
    AddHunk(front, c.(hunks := c.hunks + rest), h);
    assert c.hunks + rest + [h] == c.hunks + (rest + [h]);
  }

  lemma {:induction false} AddHunks(front: seq<Chunk>, c: Chunk, hs: seq<RawHunk>)
    requires GoodHunks(hs)
    ensures AddAll(front + [c], FlatHunks(hs)) == front + [c.(hunks := c.hunks + hs)]
  {
    if hs == [] {
      assert c.hunks + [] == c.hunks;
    } else {
      hide AddAll, IsHunk, IsGit, FlatHunks, FlatHunk, Plain;
      AddHunks(front, c, hs[..|hs| - 1]);
      AddHunksStep(front, c, hs[..|hs| - 1], hs[|hs| - 1]);
      assert hs[..|hs| - 1] + [hs[|hs| - 1]] == hs;
    }
  }

  lemma {:induction false} AddGitChunk(cs: seq<Chunk>, c: Chunk)
    requires cs != [] && GitChunk(c)
    ensures AddAll(cs, Flat(c)) == cs + [c]
  {
    hide IsGit, IsHunk, FlatHunks;
    var head, rest := c.prologue[0], c.prologue[1..];
    var started := Chunk([head], []);
    AddAllAppend(cs, c.prologue, FlatHunks(c.hunks));
    assert c.prologue == [head] + rest;
    AddAllAppend(cs, [head], rest);
    assert AddAll(cs, []) == cs && [head][..0] == [];
    assert AddAll(cs, [head]) == cs + [started];
    AddPrologue(cs, started, rest);
    AddHunks(cs, Chunk(c.prologue, []), c.hunks);
    assert [] + c.hunks == c.hunks;
  }

  lemma {:induction false} AddPreamble(c: Chunk)
    requires Preamble(c)
    ensures AddAll([EMPTY], Flat(c)) == [c]
  {
    hide IsGit, IsHunk, FlatHunks, AddAll;
    AddAllAppend([EMPTY], c.prologue, FlatHunks(c.hunks));
    assert [] + [EMPTY] == [EMPTY];
    AddPrologue([], EMPTY, c.prologue);
    assert [] + c.prologue == c.prologue;
    AddHunks([], Chunk(c.prologue, []), c.hunks);
    assert [] + c.hunks == c.hunks;
  }

  lemma {:induction false} AddFiles(cs: seq<Chunk>, fs: seq<Chunk>)
    requires cs != [] && forall k :: 0 <= k < |fs| ==> GitChunk(fs[k])
    ensures AddAll(cs, FlatAll(fs)) == cs + fs
  {
    if fs == [] {
      FlatAllSnoc([], EMPTY);
      assert cs + fs == cs;
    } else {
      hide Flat, GitChunk, FlatAll, AddAll;
      var rest, f := fs[..|fs| - 1], fs[|fs| - 1];
      AddFiles(cs, rest);
      assert rest + [f] == fs;
      FlatAllSnoc(rest, f);
      AddAllAppend(cs, FlatAll(rest), Flat(f));
      AddGitChunk(cs + rest, f);
      assert cs + rest + [f] == cs + fs;
    }
  }

  /** Files written out one after another are read back as the same files. */
  lemma {:induction false} FilesInvertFlat(fs: seq<Chunk>)
    requires Listed(fs)
    ensures Files(FlatAll(fs)) == fs
  {
    hide GoodHunks, Plain, Chunks, AddAll, IsGit, FlatAll, Flat;
    ChunksAreAdded(FlatAll(fs));
    if fs != [] && Preamble(fs[0]) && !GitChunk(fs[0]) {
      var first, rest := fs[0], fs[1..];
      assert fs == [first] + rest;
      FlatAllAppend([first], rest);
      assert [first] == [] + [first];
      FlatAllSnoc([], first);
      assert [] + Flat(first) == Flat(first);
      AddAllAppend([EMPTY], Flat(first), FlatAll(rest));
      AddPreamble(first);
      AddFiles([first], rest);
    } else {
      AddFiles([EMPTY], fs);
      assert ([EMPTY] + fs)[1..] == fs;
    }
  }
}
