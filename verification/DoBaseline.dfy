/** The staging baseline on DigitalOcean: its firewalls, which take at most five tags each. */
module DoBaseline {
  import opened Text

  const BASELINE := "passo-do-baseline"
  const STAGING_FE := "staging-fe"
  const MAX_TAGS := 5

  datatype Firewall = Firewall(name: string, tags: seq<string>)

  /** The name of the k-th chunk's firewall: numbered from the second on. */
  function ChunkName(k: nat): string {
    BASELINE + "-sg" + Suffix(k)
  }

  function Suffix(k: nat): string {
    if k == 0 then "" else "-" + Decimal(k + 1)
  }

  /** ceil(n / 5) */
  function ChunkCount(n: nat): nat {
    (n + MAX_TAGS - 1) / MAX_TAGS
  }

  function Concat(fs: seq<Firewall>): seq<string> {
    if fs == [] then [] else Concat(fs[..|fs| - 1]) + fs[|fs| - 1].tags
  }

  /** The chunks emitted so far: all full, except possibly the very last one of the list. */
  predicate Chunked(docs: seq<Firewall>, done: bool) {
    forall k :: 0 <= k < |docs| ==>
      docs[k].name == ChunkName(k) &&
      (if !done || k < |docs| - 1 then |docs[k].tags| == MAX_TAGS else 0 < |docs[k].tags| <= MAX_TAGS)
  }

  /** The chunk loop: a chunk is emitted when it is full or the tags run out. */
  method ChunkTags(tags: seq<string>) returns (docs: seq<Firewall>)
    ensures Concat(docs) == tags
    ensures |docs| == ChunkCount(|tags|)
    ensures Chunked(docs, true)
  {
    docs := [];
    var chunk: seq<string> := [];
    for i := 0 to |tags|
      invariant Concat(docs) + chunk == tags[..i]
      invariant i < |tags| ==> i == 5 * |docs| + |chunk| && |chunk| < 5
      invariant i == |tags| ==> chunk == [] && 5 * |docs| - 5 < i <= 5 * |docs|
      invariant Chunked(docs, i == |tags|)
    {
      TakeMore(Concat(docs), chunk, tags, i);
      chunk := chunk + [tags[i]];
      if |chunk| == 5 || i == |tags| - 1 {
        docs := EmitChunk(docs, chunk, |tags|, i);
        chunk := [];
        assert Concat(docs) + chunk == Concat(docs);
      }
    }
    assert tags[..|tags|] == tags;
  }

  /** The loop's emission: the k-th chunk ends at tag i of n. */
  method EmitChunk(docs: seq<Firewall>, chunk: seq<string>, n: nat, i: nat) returns (out: seq<Firewall>)
    requires Chunked(docs, false) && i < n && i == 5 * |docs| + |chunk| - 1
    requires |chunk| == 5 || (1 <= |chunk| < 5 && i == n - 1)
    ensures Chunked(out, i + 1 == n) && |out| == |docs| + 1 && Concat(out) == Concat(docs) + chunk
  {
    var suffix := "";
    if n > 5 && i >= 5 {
      suffix := "-" + Decimal(i / 5 + 1);
    }
    SuffixIsChunk(n, i, |docs|, |chunk|);
    var doc := Firewall(BASELINE + "-sg" + suffix, chunk);
    ConcatStep(docs, doc);
    ChunkedStep(docs, doc, i + 1 == n);
    out := docs + [doc];
  }

  lemma {:induction false} TakeMore(emitted: seq<string>, chunk: seq<string>, tags: seq<string>, i: nat)
    requires i < |tags| && emitted + chunk == tags[..i]
    ensures emitted + (chunk + [tags[i]]) == tags[..i + 1]
  {
    assert emitted + (chunk + [tags[i]]) == (emitted + chunk) + [tags[i]];
  }

  /** The printed suffix is the number of the chunk that ends at tag i. */
  lemma {:induction false} SuffixIsChunk(n: nat, i: nat, k: nat, size: nat)
    requires i < n && i == 5 * k + size - 1 && 1 <= size <= 5
    ensures Suffix(k) == if n > 5 && i >= 5 then "-" + Decimal(i / 5 + 1) else ""
  {
    assert i / 5 == k;
  }

  lemma {:induction false} ChunkedStep(docs: seq<Firewall>, doc: Firewall, done: bool)
    requires Chunked(docs, false) && doc.name == ChunkName(|docs|)
    requires if done then 0 < |doc.tags| <= MAX_TAGS else |doc.tags| == MAX_TAGS
    ensures Chunked(docs + [doc], done)
  {
  }

  lemma {:induction false} ConcatStep(docs: seq<Firewall>, doc: Firewall)
    ensures Concat(docs + [doc]) == Concat(docs) + doc.tags
  {
    assert (docs + [doc])[..|docs|] == docs;
  }

  /** The firewalls of the baseline: the chunks of the other services' tags, then the private
      origin's own. */
  method BaselineFirewalls(services: seq<(string, string)>, stagingTag: string) returns (docs: seq<Firewall>)
    ensures |docs| == ChunkCount(|OtherTags(services)|) + 1
    ensures Concat(docs[..|docs| - 1]) == OtherTags(services)
    ensures docs[|docs| - 1].tags == [stagingTag]
    ensures forall i, j :: 0 <= i < j < |docs| ==> docs[i].name != docs[j].name
    ensures forall k :: 0 <= k < |docs| ==> 0 < |docs[k].tags| <= MAX_TAGS
  {
    var tags: seq<string> := [];
    for i := 0 to |services|
      invariant tags == OtherTags(services[..i])
    {
      assert services[..i + 1][..i] == services[..i];
      if services[i].0 != STAGING_FE {
        tags := tags + [services[i].1];
      }
    }
    assert services[..|services|] == services;
    var chunks := ChunkTags(tags);
    docs := chunks + [Firewall(BASELINE + "-" + STAGING_FE + "-sg", [stagingTag])];
    assert docs[..|docs| - 1] == chunks;
    forall i, j | 0 <= i < j < |docs| ensures docs[i].name != docs[j].name {
      if j < |chunks| {
        ChunkNamesDistinct(i, j);
      } else {
        ChunkNameIsNotStaging(i);
      }
    }
  }

  function OtherTags(services: seq<(string, string)>): seq<string> {
    if services == [] then []
    else
      var last := services[|services| - 1];
      OtherTags(services[..|services| - 1]) + if last.0 != STAGING_FE then [last.1] else []
  }

  /** A service's tag is among the chunked ones exactly when it is not the staging front end, and
      the tags keep the order of the services. */
  lemma {:induction false} OtherTagsExact(services: seq<(string, string)>, t: string)
    ensures t in OtherTags(services) <==>
            exists i :: 0 <= i < |services| && services[i].0 != "staging-fe" && services[i].1 == t
  {
    if services != [] {
      var init, last := services[..|services| - 1], |services| - 1;
      OtherTagsExact(init, t);
      assert forall i :: 0 <= i < |init| ==> init[i] == services[i];
    }
  }

  lemma {:induction false} OtherTagsInOrder(xs: seq<(string, string)>, ys: seq<(string, string)>)
    ensures OtherTags(xs + ys) == OtherTags(xs) + OtherTags(ys)
  {
    if ys == [] {
      assert xs + ys == xs;
    } else {
      assert (xs + ys)[..|xs + ys| - 1] == xs + ys[..|ys| - 1];
      OtherTagsInOrder(xs, ys[..|ys| - 1]);
    }
  }

  /** The number in the name of a later chunk is its place. */
  lemma {:induction false} ChunkNumbered(k: nat)
    requires 0 < k < 0x7fff_ffff_ffff_ffff
    ensures var stem := "passo-do-baseline-sg-"; stem <= ChunkName(k) && AtoiOrZero(ChunkName(k)[|stem|..]) == k + 1
    ensures ChunkName(0) == "passo-do-baseline-sg"
  {
    hide AtoiOrZero, Decimal;
    var stem := "passo-do-baseline-sg-";
    assert ChunkName(k) == stem + Decimal(k + 1);
    AtoiNumeral(k + 1);
  }

  lemma {:induction false} ChunkNamesDistinct(i: nat, j: nat)
    requires i != j
    ensures ChunkName(i) != ChunkName(j)
  {
    SuffixesDistinct(i, j);
    AppendCancel(BASELINE + "-sg", Suffix(i), Suffix(j));
  }

  lemma {:induction false} SuffixesDistinct(i: nat, j: nat)
    requires i != j
    ensures Suffix(i) != Suffix(j)
  {
    AppendCancel("-", Decimal(i + 1), Decimal(j + 1));
    DecimalDistinct(i + 1, j + 1);
  }

  lemma {:induction false} AppendCancel(base: string, x: string, y: string)
    ensures base + x == base + y ==> x == y
  {
    assert (base + x)[|base|..] == x && (base + y)[|base|..] == y;
  }

  lemma {:induction false} ChunkNameIsNotStaging(i: nat)
    ensures ChunkName(i) != BASELINE + "-" + STAGING_FE + "-sg"
  {
    var n := |BASELINE|;
    assert ChunkName(i)[n + 2] == "-sg"[2] == 'g';
    assert (BASELINE + "-" + STAGING_FE + "-sg")[n + 2] == STAGING_FE[1] == 't';
  }
}
