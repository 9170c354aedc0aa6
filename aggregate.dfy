/** The loop of `FileCopyApp.process_path` that builds the text copied to the
    clipboard from the collected records. */
module Aggregate {
  import opened PyStr
  import opened Collect

  /** The delimiters and the "Show file paths" choice. */
  datatype Layout = Layout(prefix: string, suffix: string, showPaths: bool)

  /** What one record contributes: its path and a blank line when paths are
      shown, then the prefix line, the content line and the suffix line
      followed by a blank line. */
  function Section(r: Record, layout: Layout): (s: string)
    ensures |s| == (if layout.showPaths then |r.path| + 2 else 0) + |layout.prefix| + |r.content| + |layout.suffix| + 4
  {
    (if layout.showPaths then r.path + "\n\n" else "")
    + layout.prefix + "\n" + r.content + "\n" + layout.suffix + "\n\n"
  }

  /** Where the content starts inside a section. */
  function ContentOffset(r: Record, layout: Layout): nat {
    (if layout.showPaths then |r.path| + 2 else 0) + |layout.prefix| + 1
  }

  /** The parts of a section sit at fixed offsets and can be cut back out. */
  lemma SectionParts(r: Record, layout: Layout)
    ensures var s := Section(r, layout);
      var off := ContentOffset(r, layout);
      off + |r.content| + 1 + |layout.suffix| + 2 == |s| &&
      (layout.showPaths ==> s[..|r.path| + 2] == r.path + "\n\n") &&
      s[off - |layout.prefix| - 1..off] == layout.prefix + "\n" &&
      s[off..off + |r.content|] == r.content &&
      s[off + |r.content|..] == "\n" + layout.suffix + "\n\n"
  {
    var head := if layout.showPaths then r.path + "\n\n" else "";
    var s := Section(r, layout);
    var off := ContentOffset(r, layout);
    assert s == head + (layout.prefix + "\n") + r.content + ("\n" + layout.suffix + "\n\n");
  }

  /** The blob: the sections of the records, in order. */
  function Blob(results: seq<Record>, layout: Layout): string {
    if results == [] then ""
    else Blob(results[..|results| - 1], layout) + Section(results[|results| - 1], layout)
  }

  /** The aggregation loop. */
  method BuildBlob(results: seq<Record>, layout: Layout) returns (all: string)
    ensures all == Blob(results, layout)
  {
    all := "";
    for i := 0 to |results|
      invariant all == Blob(results[..i], layout)
    {
      assert results[..i + 1][..i] == results[..i];
      var r := results[i];
      ghost var before := all;
      ghost var head := if layout.showPaths then r.path + "\n\n" else "";
      if layout.showPaths {
        all := all + r.path + "\n\n";
      }
      assert all == before + head;
      all := all + layout.prefix + "\n";
      all := all + r.content + "\n";
      all := all + layout.suffix + "\n\n";
      assert all == before + (head + layout.prefix + "\n" + r.content + "\n" + layout.suffix + "\n\n");
    }
    assert results[..|results|] == results;
  }

  /** The blob of a concatenation is the concatenation of the blobs. */
  lemma {:induction false} BlobConcat(a: seq<Record>, b: seq<Record>, layout: Layout)
    ensures Blob(a + b, layout) == Blob(a, layout) + Blob(b, layout)
    decreases |b|
  {
    if b == [] {
      assert a + b == a;
    } else {
      var b' := b[..|b| - 1];
      BlobConcat(a, b', layout);
      assert (a + b)[..|a + b| - 1] == a + b';
      assert (a + b)[|a + b| - 1] == b[|b| - 1];
    }
  }

  /** Every record adds at least its four line breaks, so the blob is empty
      exactly when there are no records. */
  lemma {:induction false} BlobLength(results: seq<Record>, layout: Layout)
    ensures |Blob(results, layout)| >= 4 * |results|
    ensures Blob(results, layout) == "" <==> results == []
  {
    if results != [] {
      BlobLength(results[..|results| - 1], layout);
    }
  }

  /** Record `i`'s section sits in the blob right after the sections of the
      records before it. */
  lemma SectionInBlob(results: seq<Record>, layout: Layout, i: int)
    requires 0 <= i < |results|
    ensures var start := |Blob(results[..i], layout)|;
      var s := Section(results[i], layout);
      start + |s| <= |Blob(results, layout)| &&
      Blob(results, layout)[start..start + |s|] == s
  {
    var front := results[..i];
    var back := results[i + 1..];
    assert results == front + [results[i]] + back;
    BlobConcat(front + [results[i]], back, layout);
    assert (front + [results[i]])[..i] == front;
  }

  /** A single file whose content is `hello`, with the default delimiters and
      no paths, gives the content fenced by the delimiter lines. */
  lemma FencedExample(path: string)
    ensures Blob([Record(path, "hello")], Layout("```", "```", false)) == "```\nhello\n```\n\n"
  {
    assert [Record(path, "hello")][..0] == [];
  }

  /** With paths shown, the first record's path heads the blob. */
  lemma PathHeadsBlob(results: seq<Record>, layout: Layout)
    requires results != [] && layout.showPaths
    ensures StartsWith(Blob(results, layout), results[0].path + "\n\n")
  {
    SectionInBlob(results, layout, 0);
    SectionParts(results[0], layout);
    assert results[..0] == [];
  }
}
