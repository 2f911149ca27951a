/** The statement splitter of the schema setup script: the schema text is split at
    every `;`, each chunk is trimmed, and empty chunks and chunks that start with a
    `--` comment are dropped. */
module SchemaSetup {
  import opened Strings
  import Filtering

  /** `.map(s => s.trim())` */
  function TrimAll(chunks: seq<string>): (r: seq<string>)
    ensures |r| == |chunks|
    ensures forall i :: 0 <= i < |r| ==> r[i] == Trim(chunks[i])
  {
    if chunks == [] then [] else [Trim(chunks[0])] + TrimAll(chunks[1..])
  }

  /** `.filter(s => s.length > 0 && !s.startsWith('--'))` */
  predicate Kept(s: string) {
    |s| > 0 && !StartsWith(s, "--")
  }

  /** The statements the script executes, in order: each is well formed and comes
      from a chunk between two `;`. */
  function Statements(schema: string): (r: seq<string>)
    ensures forall st :: st in r ==> WellFormed(st)
    ensures forall st :: st in r ==> exists chunk :: chunk in Split(schema, ';') && st == Trim(chunk)
    ensures |r| <= |Split(schema, ';')|
  {
    KeptChunks(Split(schema, ';'));
    Filtering.Filter(TrimAll(Split(schema, ';')), Kept)
  }

  /** The kept chunks of a split, trimmed, are well formed statements. */
  lemma KeptChunks(chunks: seq<string>)
    requires forall p :: p in chunks ==> ';' !in p
    ensures forall st :: st in Filtering.Filter(TrimAll(chunks), Kept) ==>
      WellFormed(st) && exists chunk :: chunk in chunks && st == Trim(chunk)
  {
    var trimmed := TrimAll(chunks);
    forall st | st in Filtering.Filter(trimmed, Kept)
      ensures WellFormed(st) && exists chunk :: chunk in chunks && st == Trim(chunk)
    {
      assert st in trimmed && Kept(st);
      var i :| 0 <= i < |trimmed| && trimmed[i] == st;
      ChunkShape(chunks[i], chunks);
    }
  }

  /** Trimming only removes characters, so it cannot introduce a `;`. */
  lemma TrimKeepsOut(s: string, c: char)
    requires c !in s
    ensures c !in Trim(s)
  {
    var r := Trim(s);
    var a :| TrimmedAt(s, r, a);
    SliceKeepsOut(s, r, a, c);
  }

  lemma SliceKeepsOut(s: string, r: string, a: int, c: char)
    requires TrimmedAt(s, r, a) && c !in s
    ensures c !in r
  {
    forall i | 0 <= i < |r| ensures r[i] != c {
      assert r[i] == s[a + i];
    }
  }

  /** What the script hands to the driver: free of `;`, non-empty, trimmed at both
      ends and not a `--` comment. */
  predicate WellFormed(st: string) {
    ';' !in st && st != [] && !IsWhitespace(st[0]) && !IsWhitespace(st[|st| - 1]) && !StartsWith(st, "--")
  }

  lemma ChunkShape(chunk: string, chunks: seq<string>)
    requires chunk in chunks && forall p :: p in chunks ==> ';' !in p
    requires Kept(Trim(chunk))
    ensures WellFormed(Trim(chunk))
  {
    TrimKeepsOut(chunk, ';');
  }

  lemma {:induction false} TrimAllAppend(a: seq<string>, b: seq<string>)
    ensures TrimAll(a + b) == TrimAll(a) + TrimAll(b)
  {
    if a != [] {
      assert (a + b)[1..] == a[1..] + b;
      TrimAllAppend(a[1..], b);
    } else {
      assert a + b == b;
    }
  }

  /** A text without `;` followed by `;` contributes its own statements (at most one)
      before those of the rest: the surviving chunks keep their order. */
  lemma StatementsInOrder(chunk: string, rest: string)
    requires ';' !in chunk
    ensures Statements(chunk + [';'] + rest) == Filtering.Filter([Trim(chunk)], Kept) + Statements(rest)
  {
    SplitAtSep(chunk, ';', rest);
    TrimAllAppend([chunk], Split(rest, ';'));
    Filtering.FilterAppend([Trim(chunk)], TrimAll(Split(rest, ';')), Kept);
  }

  /** A chunk whose text begins with a `--` comment line (after leading whitespace) is
      dropped whole, with any statement that follows the comment inside the chunk. */
  lemma CommentChunkDropped(chunk: string, rest: string)
    requires ';' !in chunk
    requires StartsWith(Trim(chunk), "--")
    ensures Statements(chunk + [';'] + rest) == Statements(rest)
  {
    StatementsInOrder(chunk, rest);
    assert Filtering.Filter([Trim(chunk)], Kept) == [];
  }

  /** A chunk that trims to something other than a comment is executed as trimmed. */
  lemma StatementChunkKept(chunk: string, rest: string)
    requires ';' !in chunk
    requires Kept(Trim(chunk))
    ensures Statements(chunk + [';'] + rest) == [Trim(chunk)] + Statements(rest)
  {
    StatementsInOrder(chunk, rest);
    assert Filtering.Filter([Trim(chunk)], Kept) == [Trim(chunk)];
  }
}
