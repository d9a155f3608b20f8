/**
 * Reddit comment threads: the filter that turns a raw listing into comments,
 * and `buildCommentTree`, which extracts the chain of comments leading from a
 * top-level comment down to a target comment.
 */
module Reddit {
  import opened JsArray

  type Id = string

  /** A comment as the page uses it. `depth` is rewritten by `buildCommentTree`. */
  datatype Comment = Comment(id: Id, author: string, body: string, score: int, replies: seq<Comment>,
                             depth: int, createdUtc: int, permalink: string)

  /** The scalar fields of a raw listing child's `data`, already coerced. */
  datatype RawData = RawData(id: Id, author: string, body: string, score: int, stickied: bool,
                             depth: int, createdUtc: int, permalink: string)

  /**
   * A raw listing child: its `kind`, its `data`, and the children of
   * `data.replies.data.children` when `replies` holds such a listing
   * (`hasListing`). Reddit sends `""` for a comment without replies.
   */
  datatype RawThing = RawThing(kind: string, data: RawData, hasListing: bool, children: seq<RawThing>)

  // ---------------------------------------------------------------------------
  // transformRedditComments

  /** The listing filter: comments (`t1`) that are not stickied. */
  predicate Listed(t: RawThing)
  {
    t.kind == "t1" && !t.data.stickied
  }

  /** `transformRedditComment` given its already-transformed replies. */
  function FromRaw(d: RawData, replies: seq<Comment>): Comment
  {
    Comment(d.id, d.author, d.body, d.score, replies, d.depth, d.createdUtc, d.permalink)
  }

  /** `transformRedditComments`: filter, then transform each kept child and its reply listing. */
  function TransformComments(things: seq<RawThing>): seq<Comment>
    decreases things
  {
    if things == [] then []
    else
      var t := things[0];
      (if Listed(t) then [FromRaw(t.data, if t.hasListing then TransformComments(t.children) else [])] else [])
      + TransformComments(things[1..])
  }

  /** `transformRedditComment` for one child. */
  function TransformComment(t: RawThing): Comment
  {
    FromRaw(t.data, if t.hasListing then TransformComments(t.children) else [])
  }

  /** Each child transformed in turn, with no filter at this level. */
  function TransformEach(things: seq<RawThing>): (r: seq<Comment>)
    ensures |r| == |things|
    ensures forall i :: 0 <= i < |things| ==> r[i] == TransformComment(things[i])
  {
    if things == [] then [] else [TransformComment(things[0])] + TransformEach(things[1..])
  }

  /**
   * The transform is the filter followed by the per-child transform: it keeps
   * exactly the kept children, in their original order, each transformed with
   * the same rule applied to its own replies.
   */
  lemma {:induction false} TransformCommentsSpec(things: seq<RawThing>)
    ensures TransformComments(things) == TransformEach(Filter(things, Listed))
  {
    if things != [] {
      TransformCommentsSpec(things[1..]);
      var head := if Listed(things[0]) then [things[0]] else [];
      assert Filter(things, Listed) == head + Filter(things[1..], Listed);
      TransformEachAppend(head, Filter(things[1..], Listed));
    }
  }

  lemma {:induction false} TransformEachAppend(a: seq<RawThing>, b: seq<RawThing>)
    ensures TransformEach(a + b) == TransformEach(a) + TransformEach(b)
  {
    if a == [] {
      assert a + b == b;
    } else {
      assert (a + b)[0] == a[0];
      assert (a + b)[1..] == a[1..] + b;
      TransformEachAppend(a[1..], b);
    }
  }

  /**
   * The transform of a concatenation is the concatenation of the transforms,
   * so the relative order of the kept children is preserved.
   */
  lemma TransformCommentsAppend(a: seq<RawThing>, b: seq<RawThing>)
    ensures TransformComments(a + b) == TransformComments(a) + TransformComments(b)
  {
    TransformCommentsSpec(a + b);
    TransformCommentsSpec(a);
    TransformCommentsSpec(b);
    FilterAppend(a, b, Listed);
    TransformEachAppend(Filter(a, Listed), Filter(b, Listed));
  }

  /** Every field other than the replies is copied from `data`. */
  lemma TransformCommentFields(t: RawThing)
    ensures var c := TransformComment(t);
      && c.id == t.data.id && c.author == t.data.author && c.body == t.data.body && c.score == t.data.score
      && c.depth == t.data.depth && c.createdUtc == t.data.createdUtc && c.permalink == t.data.permalink
      && (!t.hasListing ==> c.replies == [])
      && (t.hasListing ==> |c.replies| <= |t.children|)
  {
    if t.hasListing {
      TransformCommentsSpec(t.children);
    }
  }

  // ---------------------------------------------------------------------------
  // The reply forest, flattened

  /** A comment of the forest together with its ancestors, top-level first. */
  datatype Entry = Entry(comment: Comment, ancestors: seq<Comment>)

  /**
   * Every comment of the forest with its ancestors, in the order the
   * recursive `forEach` of `buildCommentMaps` reaches them (a comment, then
   * its replies).
   */
  function Entries(cs: seq<Comment>, anc: seq<Comment>): seq<Entry>
    decreases cs
  {
    if cs == [] then []
    else
      var last := cs[|cs| - 1];
      Entries(cs[..|cs| - 1], anc) + [Entry(last, anc)] + Entries(last.replies, anc + [last])
  }

  /** Comment ids are unique across the whole forest, replies included. */
  predicate UniqueIds(cs: seq<Comment>)
  {
    var es := Entries(cs, []);
    forall i, j :: 0 <= i < j < |es| ==> es[i].comment.id != es[j].comment.id
  }

  /** `commentMap` after `set(comment.id, comment)` for each entry in turn, starting from `m`. */
  function WithComments(m: map<Id, Comment>, es: seq<Entry>): map<Id, Comment>
  {
    if es == [] then m
    else
      var e := es[|es| - 1];
      WithComments(m, es[..|es| - 1])[e.comment.id := e.comment]
  }

  /** `parentMap` after `set(comment.id, parent)` for each entry that has a parent. */
  function WithParents(m: map<Id, Comment>, es: seq<Entry>): map<Id, Comment>
  {
    if es == [] then m
    else
      var e := es[|es| - 1];
      var prev := WithParents(m, es[..|es| - 1]);
      if e.ancestors == [] then prev else prev[e.comment.id := e.ancestors[|e.ancestors| - 1]]
  }

  lemma {:induction false} WithAppend(cm: map<Id, Comment>, pm: map<Id, Comment>, a: seq<Entry>, b: seq<Entry>)
    ensures WithComments(cm, a + b) == WithComments(WithComments(cm, a), b)
    ensures WithParents(pm, a + b) == WithParents(WithParents(pm, a), b)
    decreases |b|
  {
    if b == [] {
      assert a + b == a;
    } else {
      assert (a + b)[..|a + b| - 1] == a + b[..|b| - 1];
      assert (a + b)[|a + b| - 1] == b[|b| - 1];
      WithAppend(cm, pm, a, b[..|b| - 1]);
    }
  }

  /** With unique ids, `commentMap` holds each entry's comment under its id, and nothing else. */
  lemma {:induction false} LookupComment(es: seq<Entry>, id: Id)
    requires forall i, j :: 0 <= i < j < |es| ==> es[i].comment.id != es[j].comment.id
    ensures id in WithComments(map[], es) <==> exists e :: e in es && e.comment.id == id
    ensures forall e :: e in es && e.comment.id == id ==> WithComments(map[], es)[id] == e.comment
  {
    if es != [] {
      var init := es[..|es| - 1];
      LookupComment(init, id);
      forall e | e in init ensures e in es {
        var k :| 0 <= k < |init| && init[k] == e;
        assert es[k] == e;
      }
      forall e | e in es ensures e in init || e == es[|es| - 1] {
        var k :| 0 <= k < |es| && es[k] == e;
        if k < |es| - 1 {
          assert init[k] == e;
        }
      }
      if id != es[|es| - 1].comment.id {
        assert forall e :: e in es && e.comment.id == id ==> e in init;
      } else {
        forall e | e in init ensures e.comment.id != id {
          var k :| 0 <= k < |init| && init[k] == e;
          assert es[k] == e;
        }
      }
    }
  }

  /** With unique ids, `parentMap` holds exactly the entries that have a parent, mapped to it. */
  lemma {:induction false} LookupParent(es: seq<Entry>, e: Entry)
    requires forall i, j :: 0 <= i < j < |es| ==> es[i].comment.id != es[j].comment.id
    requires e in es
    ensures e.comment.id in WithParents(map[], es) <==> e.ancestors != []
    ensures e.ancestors != [] ==> WithParents(map[], es)[e.comment.id] == e.ancestors[|e.ancestors| - 1]
  {
    var init := es[..|es| - 1];
    var last := es[|es| - 1];
    if e == last {
      if e.ancestors == [] {
        NoParentYet(init, e.comment.id);
        forall f | f in init ensures f.comment.id != e.comment.id {
          var k :| 0 <= k < |init| && init[k] == f;
          assert es[k] == f;
        }
      }
    } else {
      var k :| 0 <= k < |es| && es[k] == e;
      assert init[k] == e;
      LookupParent(init, e);
      assert last.comment.id != e.comment.id;
    }
  }

  /** An id that no entry carries is not in `parentMap`. */
  lemma {:induction false} NoParentYet(es: seq<Entry>, id: Id)
    requires forall e :: e in es ==> e.comment.id != id
    ensures id !in WithParents(map[], es)
  {
    if es != [] {
      var init := es[..|es| - 1];
      forall f | f in init ensures f in es {
        var k :| 0 <= k < |init| && init[k] == f;
        assert es[k] == f;
      }
      NoParentYet(init, id);
    }
  }

  /** In a forest with unique ids, two entries that share an id are the same entry. */
  lemma SameIdSameEntry(es: seq<Entry>, e1: Entry, e2: Entry)
    requires forall i, j :: 0 <= i < j < |es| ==> es[i].comment.id != es[j].comment.id
    requires e1 in es && e2 in es
    ensures e1.comment.id == e2.comment.id ==> e1 == e2
  {
    var i :| 0 <= i < |es| && es[i] == e1;
    var j :| 0 <= j < |es| && es[j] == e2;
  }

  // ---------------------------------------------------------------------------
  // The structure of the flattened forest

  lemma {:induction false} EntriesAppendMember(cs: seq<Comment>, anc: seq<Comment>, e: Entry)
    requires cs != []
    ensures var last := cs[|cs| - 1];
      e in Entries(cs, anc) <==>
        e in Entries(cs[..|cs| - 1], anc) || e == Entry(last, anc) || e in Entries(last.replies, anc + [last])
  {
  }

  /** Every comment of the list is an entry with the given ancestors. */
  lemma {:induction false} TopLevelPresent(cs: seq<Comment>, anc: seq<Comment>, c: Comment)
    requires c in cs
    ensures Entry(c, anc) in Entries(cs, anc)
    decreases |cs|
  {
    var init := cs[..|cs| - 1];
    EntriesAppendMember(cs, anc, Entry(c, anc));
    if c != cs[|cs| - 1] {
      var k :| 0 <= k < |cs| && cs[k] == c;
      assert init[k] == c;
      TopLevelPresent(init, anc, c);
    }
  }

  /**
   * Every entry's ancestors extend the starting ancestors; an entry with no
   * further ancestors is a comment of the list itself.
   */
  lemma {:induction false} EntryShape(cs: seq<Comment>, anc: seq<Comment>, e: Entry)
    requires e in Entries(cs, anc)
    ensures anc <= e.ancestors
    ensures |e.ancestors| == |anc| ==> e.comment in cs
    decreases cs
  {
    var init := cs[..|cs| - 1];
    var last := cs[|cs| - 1];
    EntriesAppendMember(cs, anc, e);
    if e in Entries(init, anc) {
      EntryShape(init, anc, e);
      if |e.ancestors| == |anc| {
        var k :| 0 <= k < |init| && init[k] == e.comment;
        assert cs[k] == e.comment;
      }
    } else if e != Entry(last, anc) {
      EntryShape(last.replies, anc + [last], e);
    }
  }

  /** The replies of an entry's comment are entries one level further down. */
  lemma {:induction false} RepliesPresent(cs: seq<Comment>, anc: seq<Comment>, e: Entry, r: Comment)
    requires e in Entries(cs, anc) && r in e.comment.replies
    ensures Entry(r, e.ancestors + [e.comment]) in Entries(cs, anc)
    decreases cs
  {
    var init := cs[..|cs| - 1];
    var last := cs[|cs| - 1];
    var f := Entry(r, e.ancestors + [e.comment]);
    EntriesAppendMember(cs, anc, e);
    EntriesAppendMember(cs, anc, f);
    if e in Entries(init, anc) {
      RepliesPresent(init, anc, e, r);
    } else if e == Entry(last, anc) {
      TopLevelPresent(last.replies, anc + [last], r);
    } else {
      RepliesPresent(last.replies, anc + [last], e, r);
    }
  }

  /** An entry below the starting level has its parent as an entry, and is one of its replies. */
  lemma {:induction false} ParentPresent(cs: seq<Comment>, anc: seq<Comment>, e: Entry)
    requires e in Entries(cs, anc) && |e.ancestors| > |anc|
    ensures var a := e.ancestors;
      Entry(a[|a| - 1], a[..|a| - 1]) in Entries(cs, anc) && e.comment in a[|a| - 1].replies
    decreases cs
  {
    var init := cs[..|cs| - 1];
    var last := cs[|cs| - 1];
    var a := e.ancestors;
    var p := Entry(a[|a| - 1], a[..|a| - 1]);
    EntriesAppendMember(cs, anc, e);
    EntriesAppendMember(cs, anc, p);
    if e in Entries(init, anc) {
      ParentPresent(init, anc, e);
    } else {
      assert e != Entry(last, anc);
      EntryShape(last.replies, anc + [last], e);
      if |a| == |anc| + 1 {
        assert a == anc + [last];
        assert a[..|a| - 1] == anc;
      } else {
        ParentPresent(last.replies, anc + [last], e);
      }
    }
  }

  /**
   * Walking up from an entry of the forest: each ancestor is itself an entry
   * whose ancestors are the ones above it, each is a reply of the one above,
   * and the top one is a top-level comment.
   */
  lemma {:induction false} AncestorsPresent(cs: seq<Comment>, e: Entry)
    requires e in Entries(cs, [])
    ensures var p := e.ancestors + [e.comment];
      && (forall k :: 0 <= k < |p| ==> Entry(p[k], p[..k]) in Entries(cs, []))
      && (forall k :: 0 <= k < |p| - 1 ==> p[k + 1] in p[k].replies)
      && p[0] in cs
    decreases |e.ancestors|
  {
    var a := e.ancestors;
    var p := a + [e.comment];
    assert p[..|a|] == a;
    if a == [] {
      EntryShape(cs, [], e);
    } else {
      ParentPresent(cs, [], e);
      var q := Entry(a[|a| - 1], a[..|a| - 1]);
      AncestorsPresent(cs, q);
      var pq := q.ancestors + [q.comment];
      assert pq == a;
      forall k | 0 <= k < |p| ensures Entry(p[k], p[..k]) in Entries(cs, []) {
        if k < |a| {
          assert p[k] == pq[k] && p[..k] == pq[..k];
        }
      }
      forall k | 0 <= k < |p| - 1 ensures p[k + 1] in p[k].replies {
        if k + 1 < |a| {
          assert p[k] == pq[k] && p[k + 1] == pq[k + 1];
        }
      }
      assert p[0] == pq[0];
    }
  }

  // ---------------------------------------------------------------------------
  // The thread

  function HasCommentId(id: Id): Entry -> bool
  {
    (e: Entry) => e.comment.id == id
  }

  /** The chain of comments from a top-level comment down to the one with the id, if any. */
  function ThreadPath(cs: seq<Comment>, targetId: Id): Option<seq<Comment>>
  {
    var es := Entries(cs, []);
    var k := FindIndex(es, HasCommentId(targetId));
    if k < 0 then None else Some(es[k].ancestors + [es[k].comment])
  }

  /** How many comments of the chain are shown: all of them, or at most a bound. */
  datatype Limit = Unlimited | AtMost(n: nat)

  /**
   * How many elements `slice(-n)` keeps of a sequence of length `len`:
   * `slice(-0)` and `slice(-Infinity)` keep everything, as does any `n` at
   * least the length; otherwise exactly `n`.
   */
  function Kept(len: nat, limit: Limit): (k: nat)
    ensures k <= len
    ensures len > 0 ==> k > 0
    ensures limit.AtMost? && 0 < limit.n <= len ==> k == limit.n
    ensures limit.Unlimited? || limit.n == 0 || limit.n >= len ==> k == len
  {
    if limit.Unlimited? || limit.n == 0 || limit.n >= len then len else limit.n
  }

  /** `path.slice(-n)`: the last `Kept` elements. */
  function Tail(path: seq<Comment>, limit: Limit): seq<Comment>
  {
    path[|path| - Kept(|path|, limit)..]
  }

  /** The emitted thread: the chain's comments in order, each with `depth` set to its position plus `base`. */
  function Emit(chain: seq<Comment>, base: int): (r: seq<Comment>)
    ensures |r| == |chain|
  {
    if chain == [] then [] else [chain[0].(depth := base)] + Emit(chain[1..], base + 1)
  }

  /** The i-th emitted comment is the i-th comment of the chain with depth `base + i`, all else copied. */
  lemma {:induction false} EmitAt(chain: seq<Comment>, base: int, i: int)
    requires 0 <= i < |chain|
    ensures Emit(chain, base)[i] == chain[i].(depth := base + i)
  {
    if i > 0 {
      EmitAt(chain[1..], base + 1, i - 1);
    }
  }

  function IdSet(cs: seq<Comment>): set<Id>
  {
    set c | c in cs :: c.id
  }


  /** The chain that ends at an entry: its ancestors, then its comment. */
  function PathOf(e: Entry): seq<Comment>
  {
    e.ancestors + [e.comment]
  }

  /** A chain to the id exists exactly when some comment of the forest carries the id. */
  lemma ThreadPathIff(cs: seq<Comment>, targetId: Id)
    ensures ThreadPath(cs, targetId).Some? <==> exists e :: e in Entries(cs, []) && e.comment.id == targetId
  {
    var es := Entries(cs, []);
    if ThreadPath(cs, targetId).Some? {
      var e := ThreadPathFound(cs, targetId);
    } else {
      forall e | e in es ensures e.comment.id != targetId {
        var n :| 0 <= n < |es| && es[n] == e;
        assert !HasCommentId(targetId)(es[n]);
      }
    }
  }

  /** When found, the chain is the path of an entry that carries the id. */
  lemma ThreadPathFound(cs: seq<Comment>, targetId: Id) returns (e: Entry)
    requires ThreadPath(cs, targetId).Some?
    ensures e in Entries(cs, []) && e.comment.id == targetId && ThreadPath(cs, targetId).value == PathOf(e)
  {
    var es := Entries(cs, []);
    var k := FindIndex(es, HasCommentId(targetId));
    e := es[k];
    assert HasCommentId(targetId)(e);
  }

  /**
   * The chain starts at a top-level comment, each comment is a reply of the
   * one before it, and it ends at a comment carrying the id.
   */
  lemma ThreadPathChain(cs: seq<Comment>, targetId: Id)
    requires ThreadPath(cs, targetId).Some?
    ensures var p := ThreadPath(cs, targetId).value;
      && p != [] && p[0] in cs && p[|p| - 1].id == targetId
      && (forall k :: 0 <= k < |p| - 1 ==> p[k + 1] in p[k].replies)
  {
    var e := ThreadPathFound(cs, targetId);
    AncestorsPresent(cs, e);
  }

  /**
   * What the walk needs of a chain when ids are unique: ids along it are
   * distinct, and a reply of a chain comment whose id is on the chain is the
   * next chain comment.
   */
  predicate PathFacts(p: seq<Comment>)
  {
    && p != []
    && (forall i, j :: 0 <= i < j < |p| ==> p[i].id != p[j].id)
    && (forall m, n, r {:trigger r in p[m].replies, p[n].id} ::
          0 <= m < |p| && 0 <= n < |p| && r in p[m].replies && r.id == p[n].id ==>
          n == m + 1 && r == p[n])
  }

  lemma PathFactsHold(cs: seq<Comment>, e: Entry)
    requires UniqueIds(cs) && e in Entries(cs, [])
    ensures PathFacts(PathOf(e))
  {
    PathIdsDistinct(cs, e);
    PathRepliesNext(cs, e);
  }

  /** No two comments of an entry's path share an id. */
  lemma PathIdsDistinct(cs: seq<Comment>, e: Entry)
    requires UniqueIds(cs) && e in Entries(cs, [])
    ensures var p := PathOf(e); forall i, j :: 0 <= i < j < |p| ==> p[i].id != p[j].id
  {
    var es := Entries(cs, []);
    var p := PathOf(e);
    AncestorsPresent(cs, e);
    forall i, j | 0 <= i < j < |p| ensures p[i].id != p[j].id {
      SameIdSameEntry(es, Entry(p[i], p[..i]), Entry(p[j], p[..j]));
      assert |p[..i]| != |p[..j]|;
    }
  }

  /** A reply of a path comment that shares an id with a path comment is the next comment of the path. */
  lemma PathRepliesNext(cs: seq<Comment>, e: Entry)
    requires UniqueIds(cs) && e in Entries(cs, [])
    ensures var p := PathOf(e);
      forall m, n, r {:trigger r in p[m].replies, p[n].id} ::
        0 <= m < |p| && 0 <= n < |p| && r in p[m].replies && r.id == p[n].id ==>
        n == m + 1 && r == p[n]
  {
    var es := Entries(cs, []);
    var p := PathOf(e);
    AncestorsPresent(cs, e);
    forall m, n, r | 0 <= m < |p| && 0 <= n < |p| && r in p[m].replies && r.id == p[n].id
      ensures n == m + 1 && r == p[n]
    {
      RepliesPresent(cs, [], Entry(p[m], p[..m]), r);
      assert p[..m] + [p[m]] == p[..m + 1];
      SameIdSameEntry(es, Entry(r, p[..m + 1]), Entry(p[n], p[..n]));
    }
  }

  /** Each comment of the chain is a reply of the one before it. */
  predicate Linked(chain: seq<Comment>)
  {
    |chain| <= 1 || (chain[1] in chain[0].replies && Linked(chain[1..]))
  }

  lemma {:induction false} LinkedIff(chain: seq<Comment>)
    ensures Linked(chain) <==> forall k :: 0 <= k < |chain| - 1 ==> chain[k + 1] in chain[k].replies
  {
    if |chain| > 1 {
      LinkedIff(chain[1..]);
      var t := chain[1..];
      forall k | 1 <= k < |chain| - 1 ensures chain[k] == t[k - 1] && chain[k + 1] == t[k] {
      }
    }
  }

  lemma {:induction false} LinkedSuffix(chain: seq<Comment>, s: nat)
    requires Linked(chain) && s <= |chain|
    ensures Linked(chain[s..])
  {
    if s > 0 && |chain| > 1 {
      LinkedSuffix(chain[1..], s - 1);
      assert chain[1..][s - 1..] == chain[s..];
    }
  }

  /** Every tail of such a chain has the same facts and still ends at the chain's last comment. */
  lemma TailShape(p: seq<Comment>, limit: Limit)
    requires PathFacts(p)
    ensures var l := Tail(p, limit); PathFacts(l) && l[|l| - 1] == p[|p| - 1]
  {
    var l := Tail(p, limit);
    var s := |p| - |l|;
    forall i, j | 0 <= i < j < |l| ensures l[i].id != l[j].id {
      assert l[i] == p[s + i] && l[j] == p[s + j];
    }
    forall m, n, r | 0 <= m < |l| && 0 <= n < |l| && r in l[m].replies && r.id == l[n].id
      ensures n == m + 1 && r == l[n]
    {
      assert l[m] == p[s + m] && l[n] == p[s + n];
    }
  }

  /**
   * A reply of a chain comment whose id is on the chain is the next chain
   * comment; in particular no reply of the last one has its id on the chain.
   */
  lemma OnChain(chain: seq<Comment>, k: int, r: Comment)
    requires PathFacts(chain) && 0 <= k < |chain| && r in chain[k].replies
    ensures r.id in IdSet(chain) ==> k + 1 < |chain| && r == chain[k + 1]
  {
    if r.id in IdSet(chain) {
      var c :| c in chain && c.id == r.id;
      var n :| 0 <= n < |chain| && chain[n] == c;
    }
  }

  /** Every parent link of the chain is in `parentMap`, and its top has none. */
  lemma ParentChain(cs: seq<Comment>, e: Entry)
    requires UniqueIds(cs) && e in Entries(cs, [])
    ensures var p := PathOf(e);
      var pm := WithParents(map[], Entries(cs, []));
      forall m :: 0 <= m < |p| ==> (p[m].id in pm <==> m > 0) && (m > 0 ==> pm[p[m].id] == p[m - 1])
  {
    var p := PathOf(e);
    var es := Entries(cs, []);
    AncestorsPresent(cs, e);
    forall m | 0 <= m < |p|
      ensures (p[m].id in WithParents(map[], es) <==> m > 0)
      ensures m > 0 ==> WithParents(map[], es)[p[m].id] == p[m - 1]
    {
      LookupParent(es, Entry(p[m], p[..m]));
    }
  }

  lemma IdSetSnoc(chain: seq<Comment>, j: int)
    requires 0 <= j < |chain|
    ensures IdSet(chain[..j + 1]) == IdSet(chain[..j]) + {chain[j].id}
  {
    assert chain[..j + 1] == chain[..j] + [chain[j]];
  }

  lemma NotYetOnChain(chain: seq<Comment>, j: int)
    requires 0 <= j < |chain|
    requires forall i, k :: 0 <= i < k < |chain| ==> chain[i].id != chain[k].id
    ensures chain[j].id !in IdSet(chain[..j])
  {
    forall c | c in chain[..j] ensures c.id != chain[j].id {
      var n :| 0 <= n < j && chain[..j][n] == c;
      assert chain[n] == c;
    }
  }

  /**
   * `buildCommentMaps`: record every comment under its id, and every reply's
   * parent, descending into replies depth-first. `anc` is the path to `cs`.
   */
  method BuildCommentMaps(cs: seq<Comment>, parent: Option<Comment>, ghost anc: seq<Comment>,
                          commentMap: map<Id, Comment>, parentMap: map<Id, Comment>)
    returns (cm: map<Id, Comment>, pm: map<Id, Comment>)
    requires parent == if anc == [] then None else Some(anc[|anc| - 1])
    ensures cm == WithComments(commentMap, Entries(cs, anc))
    ensures pm == WithParents(parentMap, Entries(cs, anc))
    decreases cs
  {
    cm, pm := commentMap, parentMap;
    for i := 0 to |cs|
      invariant cm == WithComments(commentMap, Entries(cs[..i], anc))
      invariant pm == WithParents(parentMap, Entries(cs[..i], anc))
    {
      var c := cs[i];
      assert cs[..i + 1][..i] == cs[..i];
      ghost var before := Entries(cs[..i], anc);
      ghost var mid := before + [Entry(c, anc)];
      assert Entries(cs[..i + 1], anc) == mid + Entries(c.replies, anc + [c]);
      WithAppend(commentMap, parentMap, before, [Entry(c, anc)]);
      WithAppend(commentMap, parentMap, mid, Entries(c.replies, anc + [c]));
      cm := cm[c.id := c];
      if parent.Some? {
        pm := pm[c.id := parent.value];
      }
      assert [Entry(c, anc)][..0] == [];
      cm, pm := BuildCommentMaps(c.replies, Some(c), anc + [c], cm, pm);
    }
    assert cs[..|cs|] == cs;
  }

  /** The `while` loop: from the target, prepend each comment and follow `parentMap` until a comment has no parent. */
  method WalkToRoot(parentMap: map<Id, Comment>, target: Comment, ghost p: seq<Comment>)
    returns (threadPath: seq<Comment>)
    requires p != [] && p[|p| - 1] == target
    requires forall m :: 0 <= m < |p| ==> (p[m].id in parentMap <==> m > 0) && (m > 0 ==> parentMap[p[m].id] == p[m - 1])
    ensures threadPath == p
  {
    var current := target;
    threadPath := [];
    ghost var m := |p| - 1;
    while true
      invariant 0 <= m < |p| && current == p[m] && threadPath == p[m + 1..]
      decreases m
    {
      threadPath := [current] + threadPath;
      assert threadPath == p[m..];
      if current.id in parentMap {
        current := parentMap[current.id];
        m := m - 1;
      } else {
        break;
      }
    }
  }

  /**
   * `buildTreeRecursive`: a comment already visited, or not on the chain,
   * ends the walk there; a chain comment is emitted with the given depth; at
   * the target its replies are visited, otherwise the walk descends into the
   * replies until one of them reports the target.
   */
  method Visit(c: Comment, depth: int, targetIds: set<Id>, targetId: Id, visited0: set<Id>, result0: seq<Comment>,
               ghost chain: seq<Comment>, ghost j: int)
    returns (found: bool, visited: set<Id>, result: seq<Comment>)
    requires PathFacts(chain) && targetIds == IdSet(chain) && targetId == chain[|chain| - 1].id
    requires Linked(chain)
    requires c.id in targetIds ==> 0 <= j < |chain| && c == chain[j] && visited0 * targetIds == IdSet(chain[..j])
    ensures c.id !in targetIds ==> !found && result == result0 && visited == visited0 + {c.id}
    ensures c.id in targetIds ==>
      found && result == result0 + Emit(chain[j..], depth) && visited * targetIds == targetIds
    decreases c, 1
  {
    if c.id in targetIds {
      NotYetOnChain(chain, j);
    }
    if c.id in visited0 {
      return false, visited0, result0;
    }
    visited := visited0 + {c.id};
    if c.id !in targetIds {
      return false, visited, result0;
    }
    result := result0 + [c.(depth := depth)];
    IdSetSnoc(chain, j);
    if c.id == targetId {
      assert j == |chain| - 1;
      assert chain[..j + 1] == chain;
      assert chain[j..] == [c];
      visited, result := VisitAll(c, depth + 1, targetIds, targetId, visited, result, chain);
      return true, visited, result;
    }
    LinkAt(chain, j);
    found, visited, result := Descend(c, depth + 1, targetIds, targetId, visited, result, chain, j);
    assert chain[j..][1..] == chain[j + 1..];
  }

  lemma {:induction false} LinkAt(chain: seq<Comment>, j: int)
    requires Linked(chain) && 0 <= j < |chain| - 1
    ensures chain[j + 1] in chain[j].replies
  {
    if j > 0 {
      LinkAt(chain[1..], j - 1);
    }
  }

  /** The loop over the target's replies: none of them is on the chain, so nothing is emitted. */
  method VisitAll(c: Comment, depth: int, targetIds: set<Id>, targetId: Id, visited0: set<Id>, result0: seq<Comment>,
                  ghost chain: seq<Comment>)
    returns (visited: set<Id>, result: seq<Comment>)
    requires PathFacts(chain) && targetIds == IdSet(chain) && targetId == chain[|chain| - 1].id
    requires Linked(chain) && c == chain[|chain| - 1]
    ensures visited * targetIds == visited0 * targetIds && result == result0
    decreases c, 0
  {
    visited, result := visited0, result0;
    for i := 0 to |c.replies|
      invariant visited * targetIds == visited0 * targetIds && result == result0
    {
      var r := c.replies[i];
      OnChain(chain, |chain| - 1, r);
      var _, v, res := Visit(r, depth, targetIds, targetId, visited, result, chain, 0);
      visited, result := v, res;
    }
  }

  /** The loop over a chain comment's replies, stopping at the one that reports the target. */
  method Descend(c: Comment, depth: int, targetIds: set<Id>, targetId: Id, visited0: set<Id>, result0: seq<Comment>,
                 ghost chain: seq<Comment>, ghost j: int)
    returns (found: bool, visited: set<Id>, result: seq<Comment>)
    requires PathFacts(chain) && targetIds == IdSet(chain) && targetId == chain[|chain| - 1].id
    requires 0 <= j < |chain| - 1 && c == chain[j] && visited0 * targetIds == IdSet(chain[..j + 1])
    requires Linked(chain) && chain[j + 1] in c.replies
    ensures found && result == result0 + Emit(chain[j + 1..], depth) && visited * targetIds == targetIds
    decreases c, 0
  {
    ghost var next := chain[j + 1];
    visited, result := visited0, result0;
    for i := 0 to |c.replies|
      invariant visited * targetIds == visited0 * targetIds && result == result0
      invariant forall k :: 0 <= k < i ==> c.replies[k] != next
    {
      var r := c.replies[i];
      OnChain(chain, j, r);
      var f, v, res := Visit(r, depth, targetIds, targetId, visited, result, chain, j + 1);
      visited, result := v, res;
      if f {
        return true, visited, result;
      }
    }
    assert false;
  }

  /**
   * `buildCommentTree`: record the forest in the two maps, find the target,
   * walk up the parent map to its top-level ancestor, keep the last comments
   * of that chain, and emit them with depths counted from the first kept one.
   * An unknown target gives no comments and depth 0.
   */
  method BuildCommentTree(comments: seq<Comment>, targetId: Id, maxComments: Limit)
    returns (result: seq<Comment>, maxDepth: nat)
    requires UniqueIds(comments)
    ensures ThreadPath(comments, targetId).None? ==> result == [] && maxDepth == 0
    ensures ThreadPath(comments, targetId).Some? ==>
      var path := ThreadPath(comments, targetId).value;
      maxDepth == |path| && result == Emit(Tail(path, maxComments), 0)
  {
    var commentMap, parentMap := BuildCommentMaps(comments, None, [], map[], map[]);
    ghost var es := Entries(comments, []);
    LookupComment(es, targetId);
    ThreadPathIff(comments, targetId);
    if targetId !in commentMap {
      return [], 0;
    }
    ghost var e := ThreadPathFound(comments, targetId);
    ghost var p := PathOf(e);
    ParentChain(comments, e);
    var targetComment := commentMap[targetId];
    var threadPath := WalkToRoot(parentMap, targetComment, p);
    PathFactsHold(comments, e);
    AncestorsPresent(comments, e);
    LinkedIff(p);
    result := ExtractThread(threadPath, targetId, maxComments);
    maxDepth := |threadPath|;
  }

  /**
   * The second half of `buildCommentTree`: keep the last `maxComments`
   * comments of the chain and walk the kept part depth-first from its first
   * comment, emitting each chain comment with its depth.
   */
  method ExtractThread(threadPath: seq<Comment>, targetId: Id, maxComments: Limit) returns (result: seq<Comment>)
    requires PathFacts(threadPath) && Linked(threadPath) && threadPath[|threadPath| - 1].id == targetId
    ensures result == Emit(Tail(threadPath, maxComments), 0)
  {
    var limitedThreadPath := Tail(threadPath, maxComments);
    var targetCommentIds := IdSet(limitedThreadPath);
    TailShape(threadPath, maxComments);
    LinkedSuffix(threadPath, |threadPath| - |limitedThreadPath|);
    var rootComment := limitedThreadPath[0];
    assert rootComment in limitedThreadPath;
    assert rootComment.id in targetCommentIds;
    assert limitedThreadPath[0..] == limitedThreadPath;
    var _, _, res := Visit(rootComment, 0, targetCommentIds, targetId, {}, [], limitedThreadPath, 0);
    assert [] + Emit(limitedThreadPath, 0) == Emit(limitedThreadPath, 0);
    return res;
  }

  /**
   * The emitted form of a chain ends at the chain's last comment, is no
   * longer than the chain, and its i-th comment is the matching comment of
   * the chain's tail with depth i.
   */
  lemma EmitTail(path: seq<Comment>, limit: Limit)
    requires path != []
    ensures var out := Emit(Tail(path, limit), 0);
      && out != [] && out[|out| - 1].id == path[|path| - 1].id
      && |out| <= |path|
      && (forall i :: 0 <= i < |out| ==> out[i] == path[|path| - |out| + i].(depth := i))
  {
    var l := Tail(path, limit);
    var s := |path| - |l|;
    var out := Emit(l, 0);
    forall i | 0 <= i < |out| ensures out[i] == path[|path| - |out| + i].(depth := i) {
      EmitAt(l, 0, i);
      assert l[i] == path[s + i];
    }
  }

  /** The emitted form of a chain with distinct ids repeats no id and holds no reply of its last comment. */
  lemma EmitDistinct(path: seq<Comment>, limit: Limit)
    requires PathFacts(path)
    ensures var out := Emit(Tail(path, limit), 0);
      && (forall i, j :: 0 <= i < j < |out| ==> out[i].id != out[j].id)
      && (forall r, i :: r in path[|path| - 1].replies && 0 <= i < |out| ==> out[i].id != r.id)
  {
    TailShape(path, limit);
    var l := Tail(path, limit);
    var out := Emit(l, 0);
    forall i | 0 <= i < |out| ensures out[i].id == l[i].id {
      EmitAt(l, 0, i);
    }
    forall r, i | r in path[|path| - 1].replies && 0 <= i < |out| ensures out[i].id != r.id {
      OnChain(l, |l| - 1, r);
      assert l[i] in l;
    }
  }

  /**
   * The emitted thread ends at the target, is no longer than the chain, and
   * its i-th comment is the matching comment of the chain's tail with depth i.
   */
  lemma ThreadEndsAtTarget(comments: seq<Comment>, targetId: Id, maxComments: Limit)
    requires ThreadPath(comments, targetId).Some?
    ensures var path := ThreadPath(comments, targetId).value;
      var out := Emit(Tail(path, maxComments), 0);
      && out != [] && out[|out| - 1].id == targetId
      && |out| <= |path|
      && (forall i :: 0 <= i < |out| ==> out[i] == path[|path| - |out| + i].(depth := i))
  {
    var e := ThreadPathFound(comments, targetId);
    EmitTail(PathOf(e), maxComments);
  }

  /**
   * With unique ids nothing is emitted twice, and none of the target's
   * replies is emitted.
   */
  lemma ThreadEmitsNoRepliesOfTarget(comments: seq<Comment>, targetId: Id, maxComments: Limit)
    requires UniqueIds(comments)
    requires ThreadPath(comments, targetId).Some?
    ensures var path := ThreadPath(comments, targetId).value;
      var out := Emit(Tail(path, maxComments), 0);
      && (forall i, j :: 0 <= i < j < |out| ==> out[i].id != out[j].id)
      && (forall r, i :: r in path[|path| - 1].replies && 0 <= i < |out| ==> out[i].id != r.id)
  {
    var e := ThreadPathFound(comments, targetId);
    PathFactsHold(comments, e);
    EmitDistinct(PathOf(e), maxComments);
  }
}
