/**
 * `OpenApiMerger`: `getMergedOpenAPISpec` joins the service's own OpenAPI
 * document with the one the auth provider generates. Maps (paths and the
 * component sections) are merged with the auth document's entries winning;
 * tags and servers are concatenated, main first, and de-duplicated by `name`
 * and `url`, keeping the first occurrence.
 *
 * The contents of paths, schemas and the like are not inspected and stay an
 * opaque type parameter `V`.
 */
module OpenApiMerger {
  import opened Common

  // ---------------------------------------------------------------------
  // Auth-wins merge of maps
  // ---------------------------------------------------------------------

  /** `x || {}` for a map that may be missing. */
  function OrEmpty<V>(m: Option<map<string, V>>): map<string, V> {
    if m.Some? then m.value else map[]
  }

  /** `{ ...(main || {}), ...(auth || {}) }`: every key of either side, the auth side winning a collision. */
  function MergeEntries<V>(main: Option<map<string, V>>, auth: Option<map<string, V>>): (r: map<string, V>)
    ensures r.Keys == OrEmpty(main).Keys + OrEmpty(auth).Keys
    ensures forall k :: k in OrEmpty(auth) ==> r[k] == OrEmpty(auth)[k]
    ensures forall k :: k in OrEmpty(main) && k !in OrEmpty(auth) ==> r[k] == OrEmpty(main)[k]
  {
    OrEmpty(main) + OrEmpty(auth)
  }

  /** Merging with a missing side gives the other side. */
  lemma MergeWithMissing<V>(m: Option<map<string, V>>)
    ensures MergeEntries(m, None) == OrEmpty(m)
    ensures MergeEntries(None, m) == OrEmpty(m)
  {
  }

  /** Merging is idempotent on the auth side: merging the auth document in a second time changes nothing. */
  lemma MergeAgain<V>(main: Option<map<string, V>>, auth: Option<map<string, V>>)
    ensures MergeEntries(Some(MergeEntries(main, auth)), auth) == MergeEntries(main, auth)
  {
  }

  /** The component sections the merger rebuilds. */
  const SectionNames: set<string> :=
    {"schemas", "securitySchemes", "parameters", "responses", "requestBodies", "headers", "examples", "links", "callbacks"}

  /** `components?.<name>`: the section when the components object has it. */
  function Section<V>(components: Option<map<string, map<string, V>>>, name: string): Option<map<string, V>> {
    if components.Some? && name in components.value then Some(components.value[name]) else None
  }

  /**
   * `{ ...main.components, schemas: merge, securitySchemes: merge, ... }`: the
   * main document's sections, with the nine named ones replaced by their merge.
   * Sections the auth document has outside the nine are not carried over.
   */
  function MergeComponents<V>(main: Option<map<string, map<string, V>>>, auth: Option<map<string, map<string, V>>>)
    : (r: map<string, map<string, V>>)
    ensures r.Keys == OrEmpty(main).Keys + SectionNames
    ensures forall n :: n in SectionNames ==> r[n] == MergeEntries(Section(main, n), Section(auth, n))
    ensures forall n :: n in OrEmpty(main) && n !in SectionNames ==> r[n] == OrEmpty(main)[n]
  {
    OrEmpty(main) + map n | n in SectionNames :: MergeEntries(Section(main, n), Section(auth, n))
  }

  // ---------------------------------------------------------------------
  // Keep-first de-duplication
  // ---------------------------------------------------------------------

  /** `self.findIndex(x => key(x) == k)` from position `i` on: the first index holding key `k`, or -1. */
  function FindIndexFrom<T, K(==)>(xs: seq<T>, key: T -> K, k: K, i: nat): (r: int)
    requires i <= |xs|
    ensures r == -1 || i <= r < |xs|
    ensures r >= 0 ==> key(xs[r]) == k && forall j :: i <= j < r ==> key(xs[j]) != k
    ensures r == -1 ==> forall j :: i <= j < |xs| ==> key(xs[j]) != k
    decreases |xs| - i
  {
    if i == |xs| then -1
    else if key(xs[i]) == k then i
    else FindIndexFrom(xs, key, k, i + 1)
  }

  function FindIndex<T, K(==)>(xs: seq<T>, key: T -> K, k: K): (r: int)
    ensures r == -1 || 0 <= r < |xs|
    ensures r >= 0 ==> key(xs[r]) == k && forall j :: 0 <= j < r ==> key(xs[j]) != k
    ensures r == -1 ==> forall j :: 0 <= j < |xs| ==> key(xs[j]) != k
  {
    FindIndexFrom(xs, key, k, 0)
  }

  /** `xs.filter((x, i, self) => i === self.findIndex(y => key(y) === key(x)))`, from position `i` on. */
  function FilterFirstFrom<T, K(==)>(xs: seq<T>, key: T -> K, i: nat): (r: seq<T>)
    requires i <= |xs|
    ensures |r| <= |xs| - i
    ensures forall a :: 0 <= a < |r| ==> r[a] in xs[i..]
    decreases |xs| - i
  {
    if i == |xs| then []
    else (if FindIndex(xs, key, key(xs[i])) == i then [xs[i]] else []) + FilterFirstFrom(xs, key, i + 1)
  }

  /** The de-duplication as the merger writes it. */
  function Dedup<T, K(==)>(xs: seq<T>, key: T -> K): (r: seq<T>)
    ensures |r| <= |xs|
    ensures forall a :: 0 <= a < |r| ==> r[a] in xs
  {
    FilterFirstFrom(xs, key, 0)
  }

  /** The keys occurring in a list. */
  ghost function KeysOf<T, K>(xs: seq<T>, key: T -> K): set<K> {
    set j | 0 <= j < |xs| :: key(xs[j])
  }

  /**
   * The reference de-duplication: walk the list once, remembering the keys
   * seen so far, and keep an element exactly when its key is new.
   */
  function KeepFirst<T, K(==)>(xs: seq<T>, key: T -> K, seen: set<K>): (r: seq<T>)
    ensures |r| <= |xs|
  {
    if xs == [] then []
    else if key(xs[0]) in seen then KeepFirst(xs[1..], key, seen)
    else [xs[0]] + KeepFirst(xs[1..], key, seen + {key(xs[0])})
  }

  /** `r` is `xs` with some elements dropped, the rest in their original order. */
  ghost predicate SubsequenceOf<T>(r: seq<T>, xs: seq<T>)
    decreases |xs|
  {
    if r == [] then true
    else if xs == [] then false
    else (r[0] == xs[0] && SubsequenceOf(r[1..], xs[1..])) || SubsequenceOf(r, xs[1..])
  }

  /** No two elements of the list share a key. */
  ghost predicate KeysDistinct<T, K>(xs: seq<T>, key: T -> K) {
    forall a, b :: 0 <= a < b < |xs| ==> key(xs[a]) != key(xs[b])
  }

  /** Every element of `r` is the first element of `xs` with its key. */
  ghost predicate FirstOccurrences<T, K>(r: seq<T>, xs: seq<T>, key: T -> K) {
    forall a :: 0 <= a < |r| ==> FindIndex(xs, key, key(r[a])) >= 0 && r[a] == xs[FindIndex(xs, key, key(r[a]))]
  }

  /** The filter from position `i` on is the reference walk over `xs[i..]`, having seen the keys of `xs[..i]`. */
  lemma {:induction false} FilterFirstIsKeepFirstFrom<T, K>(xs: seq<T>, key: T -> K, i: nat)
    requires i <= |xs|
    ensures FilterFirstFrom(xs, key, i) == KeepFirst(xs[i..], key, KeysOf(xs[..i], key))
    decreases |xs| - i
  {
    if i < |xs| {
      FilterFirstIsKeepFirstFrom(xs, key, i + 1);
      KeysOfGrow(xs, key, i);
      FirstWithKeyIff(xs, key, i);
      assert xs[i..][1..] == xs[i + 1..];
      assert xs[i..][0] == xs[i];
      if key(xs[i]) in KeysOf(xs[..i], key) {
        assert KeysOf(xs[..i + 1], key) == KeysOf(xs[..i], key);
      }
    }
  }

  /** The keys of a prefix grow by the key of the next element. */
  lemma KeysOfGrow<T, K>(xs: seq<T>, key: T -> K, i: nat)
    requires i < |xs|
    ensures KeysOf(xs[..i + 1], key) == KeysOf(xs[..i], key) + {key(xs[i])}
  {
    assert forall j :: 0 <= j < i ==> xs[..i + 1][j] == xs[..i][j];
    assert xs[..i + 1][i] == xs[i];
  }

  /** Element `i` is the first with its key exactly when no earlier element has that key. */
  lemma FirstWithKeyIff<T, K>(xs: seq<T>, key: T -> K, i: nat)
    requires i < |xs|
    ensures FindIndex(xs, key, key(xs[i])) == i <==> key(xs[i]) !in KeysOf(xs[..i], key)
  {
    var k := key(xs[i]);
    if k in KeysOf(xs[..i], key) {
      var j :| 0 <= j < i && key(xs[..i][j]) == k;
      assert key(xs[j]) == k;
    } else {
      forall j | 0 <= j < i ensures key(xs[j]) != k {
        assert xs[..i][j] == xs[j];
      }
    }
  }

  /** The merger's filter and the reference walk agree on every list. */
  lemma DedupIsKeepFirst<T, K>(xs: seq<T>, key: T -> K)
    ensures Dedup(xs, key) == KeepFirst(xs, key, {})
  {
    FilterFirstIsKeepFirstFrom(xs, key, 0);
    assert xs[0..] == xs;
    assert KeysOf(xs[..0], key) == {};
  }

  /** The reference walk keeps no key twice and none it had already seen. */
  lemma {:induction false} KeepFirstKeysDistinct<T, K>(xs: seq<T>, key: T -> K, seen: set<K>)
    ensures forall a :: 0 <= a < |KeepFirst(xs, key, seen)| ==> key(KeepFirst(xs, key, seen)[a]) !in seen
    ensures KeysDistinct(KeepFirst(xs, key, seen), key)
  {
    if xs != [] {
      var k := key(xs[0]);
      if k in seen {
        KeepFirstKeysDistinct(xs[1..], key, seen);
        assert KeepFirst(xs, key, seen) == KeepFirst(xs[1..], key, seen);
      } else {
        KeepFirstKeysDistinct(xs[1..], key, seen + {k});
        var rest := KeepFirst(xs[1..], key, seen + {k});
        var r := [xs[0]] + rest;
        assert KeepFirst(xs, key, seen) == r;
        forall a | 0 <= a < |r| ensures key(r[a]) !in seen {
          if a == 0 {
            assert r[a] == xs[0];
          } else {
            assert r[a] == rest[a - 1];
            assert key(rest[a - 1]) !in seen + {k};
          }
        }
        forall a, b | 0 <= a < b < |r| ensures key(r[a]) != key(r[b]) {
          assert r[b] == rest[b - 1];
          assert key(rest[b - 1]) !in seen + {k};
          if a == 0 {
            assert r[a] == xs[0];
          } else {
            assert r[a] == rest[a - 1];
            assert key(rest[a - 1]) != key(rest[b - 1]);
          }
        }
      }
    }
  }

  /** The reference walk keeps exactly the keys of the list it had not seen. */
  lemma {:induction false} KeepFirstKeys<T, K>(xs: seq<T>, key: T -> K, seen: set<K>)
    ensures KeysOf(KeepFirst(xs, key, seen), key) == KeysOf(xs, key) - seen
  {
    if xs != [] {
      var k := key(xs[0]);
      var tail := xs[1..];
      assert KeysOf(xs, key) == {k} + KeysOf(tail, key) by {
        forall j | 0 < j < |xs| ensures xs[j] == tail[j - 1] { }
        forall x | x in KeysOf(tail, key) ensures x in KeysOf(xs, key) {
          var j :| 0 <= j < |tail| && key(tail[j]) == x;
          assert xs[j + 1] == tail[j];
        }
      }
      if k in seen {
        KeepFirstKeys(tail, key, seen);
      } else {
        KeepFirstKeys(tail, key, seen + {k});
        var rest := KeepFirst(tail, key, seen + {k});
        var r := [xs[0]] + rest;
        assert KeepFirst(xs, key, seen) == r;
        assert KeysOf(r, key) == {k} + KeysOf(rest, key) by {
          forall x | x in KeysOf(rest, key) ensures x in KeysOf(r, key) {
            var j :| 0 <= j < |rest| && key(rest[j]) == x;
            assert r[j + 1] == rest[j];
          }
          assert key(r[0]) == k;
          forall x | x in KeysOf(r, key) ensures x in {k} + KeysOf(rest, key) {
            var j :| 0 <= j < |r| && key(r[j]) == x;
            if j > 0 { assert r[j] == rest[j - 1]; }
          }
        }
      }
    }
  }

  /** The reference walk only drops elements; what it keeps stays in order. */
  lemma {:induction false} KeepFirstIsSubsequence<T, K>(xs: seq<T>, key: T -> K, seen: set<K>)
    ensures SubsequenceOf(KeepFirst(xs, key, seen), xs)
  {
    if xs != [] {
      var k := key(xs[0]);
      if k in seen {
        KeepFirstIsSubsequence(xs[1..], key, seen);
        SubsequenceDropHead(KeepFirst(xs[1..], key, seen), xs);
      } else {
        KeepFirstIsSubsequence(xs[1..], key, seen + {k});
        var r := [xs[0]] + KeepFirst(xs[1..], key, seen + {k});
        assert r[0] == xs[0] && r[1..] == KeepFirst(xs[1..], key, seen + {k});
      }
    }
  }

  lemma SubsequenceDropHead<T>(r: seq<T>, xs: seq<T>)
    requires xs != [] && SubsequenceOf(r, xs[1..])
    ensures SubsequenceOf(r, xs)
  {
  }

  /** Every element the merger keeps is the first one in the list with its key. */
  lemma {:induction false} FilterFirstKeepsFirst<T, K>(xs: seq<T>, key: T -> K, i: nat)
    requires i <= |xs|
    ensures FirstOccurrences(FilterFirstFrom(xs, key, i), xs, key)
    decreases |xs| - i
  {
    if i < |xs| {
      FilterFirstKeepsFirst(xs, key, i + 1);
      var rest := FilterFirstFrom(xs, key, i + 1);
      if FindIndex(xs, key, key(xs[i])) == i {
        var r := [xs[i]] + rest;
        assert FilterFirstFrom(xs, key, i) == r;
        forall a | 0 <= a < |r|
          ensures FindIndex(xs, key, key(r[a])) >= 0 && r[a] == xs[FindIndex(xs, key, key(r[a]))]
        {
          if a == 0 {
            assert r[a] == xs[i];
          } else {
            assert r[a] == rest[a - 1];
            assert FindIndex(xs, key, key(rest[a - 1])) >= 0 && rest[a - 1] == xs[FindIndex(xs, key, key(rest[a - 1]))];
          }
        }
      } else {
        assert FilterFirstFrom(xs, key, i) == rest;
      }
    }
  }

  /**
   * What the de-duplication guarantees: keys are unique; the keys are exactly
   * those of the input; each kept element is the first with its key; the
   * order of the input is kept.
   */
  lemma DedupSpec<T, K>(xs: seq<T>, key: T -> K)
    ensures KeysDistinct(Dedup(xs, key), key)
    ensures KeysOf(Dedup(xs, key), key) == KeysOf(xs, key)
    ensures FirstOccurrences(Dedup(xs, key), xs, key)
    ensures SubsequenceOf(Dedup(xs, key), xs)
  {
    DedupIsKeepFirst(xs, key);
    KeepFirstKeysDistinct(xs, key, {});
    KeepFirstKeys(xs, key, {});
    FilterFirstKeepsFirst(xs, key, 0);
    KeepFirstIsSubsequence(xs, key, {});
  }

  /** A list whose keys are already unique comes back unchanged. */
  lemma {:induction false} KeepFirstOfUnique<T, K>(xs: seq<T>, key: T -> K, seen: set<K>)
    requires KeysDistinct(xs, key)
    requires forall a :: 0 <= a < |xs| ==> key(xs[a]) !in seen
    ensures KeepFirst(xs, key, seen) == xs
  {
    if xs != [] {
      var k := key(xs[0]);
      assert forall a :: 0 <= a < |xs[1..]| ==> xs[1..][a] == xs[a + 1];
      KeepFirstOfUnique(xs[1..], key, seen + {k});
      assert xs == [xs[0]] + xs[1..];
    }
  }

  /** De-duplicating twice is de-duplicating once. */
  lemma DedupIdempotent<T, K>(xs: seq<T>, key: T -> K)
    ensures Dedup(Dedup(xs, key), key) == Dedup(xs, key)
  {
    var r := Dedup(xs, key);
    DedupSpec(xs, key);
    DedupIsKeepFirst(r, key);
    KeepFirstOfUnique(r, key, {});
  }

  // ---------------------------------------------------------------------
  // The document
  // ---------------------------------------------------------------------

  datatype Tag = Tag(name: string, description: Option<string>)
  datatype Server = Server(url: string, description: Option<string>)

  function TagName(t: Tag): string { t.name }
  function ServerUrl(s: Server): string { s.url }

  /** The `info` object: title and description, and whatever other fields it has. */
  datatype Info<V> = Info(title: Option<string>, description: Option<string>, others: map<string, V>)

  /** An OpenAPI document as far as the merger looks at it; `others` holds every other top-level field. */
  datatype Document<V> = Document(
    info: Option<Info<V>>,
    paths: Option<map<string, V>>,
    components: Option<map<string, map<string, V>>>,
    tags: Option<seq<Tag>>,
    servers: Option<seq<Server>>,
    others: map<string, V>)

  const MergedTitle := "Posts API with Better Auth"
  const MergedDescription :=
    "A RESTful API for managing posts with Better Auth authentication. Includes all Posts API endpoints and Better Auth authentication endpoints."

  function OrNone<T>(xs: Option<seq<T>>): seq<T> {
    if xs.Some? then xs.value else []
  }

  /** `getMergedOpenAPISpec` on the two documents it reads. */
  function MergeDocuments<V>(main: Document<V>, auth: Document<V>): (r: Document<V>)
    ensures r.others == main.others
    ensures r.info.Some? && r.info.value.title == Some(MergedTitle) && r.info.value.description == Some(MergedDescription)
    ensures r.info.value.others == (if main.info.Some? then main.info.value.others else map[])
    ensures r.paths == Some(MergeEntries(main.paths, auth.paths))
    ensures r.components == Some(MergeComponents(main.components, auth.components))
    ensures r.tags == Some(Dedup(OrNone(main.tags) + OrNone(auth.tags), TagName))
    ensures r.servers == Some(Dedup(OrNone(main.servers) + OrNone(auth.servers), ServerUrl))
    ensures KeysOf(r.tags.value, TagName) == KeysOf(OrNone(main.tags) + OrNone(auth.tags), TagName)
    ensures forall a, b :: 0 <= a < b < |r.tags.value| ==> r.tags.value[a].name != r.tags.value[b].name
    ensures KeysOf(r.servers.value, ServerUrl) == KeysOf(OrNone(main.servers) + OrNone(auth.servers), ServerUrl)
    ensures forall a, b :: 0 <= a < b < |r.servers.value| ==> r.servers.value[a].url != r.servers.value[b].url
  {
    var info := Info(Some(MergedTitle), Some(MergedDescription), if main.info.Some? then main.info.value.others else map[]);
    var tags := OrNone(main.tags) + OrNone(auth.tags);
    var servers := OrNone(main.servers) + OrNone(auth.servers);
    DedupSpec(tags, TagName);
    DedupSpec(servers, ServerUrl);
    Document(Some(info), Some(MergeEntries(main.paths, auth.paths)), Some(MergeComponents(main.components, auth.components)),
             Some(Dedup(tags, TagName)), Some(Dedup(servers, ServerUrl)), main.others)
  }

  /** Every key of `xs` survives de-duplication, carried by the first element with that key. */
  lemma DedupKeepsFirst<T, K>(xs: seq<T>, key: T -> K, i: nat)
    requires i < |xs|
    ensures exists u :: u in Dedup(xs, key) && key(u) == key(xs[i])
    ensures forall u :: u in Dedup(xs, key) && key(u) == key(xs[i]) ==> u == xs[FindIndex(xs, key, key(xs[i]))]
  {
    var r := Dedup(xs, key);
    DedupSpec(xs, key);
    assert key(xs[i]) in KeysOf(xs, key);
    var a :| 0 <= a < |r| && key(r[a]) == key(xs[i]);
    assert r[a] in r;
    forall u | u in r && key(u) == key(xs[i]) ensures u == xs[FindIndex(xs, key, key(xs[i]))] {
      var b :| 0 <= b < |r| && r[b] == u;
    }
  }

  /** A key found in a prefix is found at the same place in the whole list. */
  lemma FindIndexInPrefix<T, K>(xs: seq<T>, ys: seq<T>, key: T -> K, i: nat)
    requires i < |xs|
    ensures FindIndex(xs + ys, key, key(xs[i])) == FindIndex(xs, key, key(xs[i]))
  {
    var k := key(xs[i]);
    var g := FindIndex(xs, key, k);
    assert 0 <= g <= i;
    assert (xs + ys)[g] == xs[g];
    forall j | 0 <= j < g ensures key((xs + ys)[j]) != k {
      assert (xs + ys)[j] == xs[j];
    }
  }

  /** De-duplicating `xs + ys` keeps, for each key of `xs`, the first element of `xs` with it. */
  lemma DedupPrefixWins<T, K>(xs: seq<T>, ys: seq<T>, key: T -> K, i: nat)
    requires i < |xs|
    ensures exists u :: u in Dedup(xs + ys, key) && key(u) == key(xs[i])
    ensures forall u :: u in Dedup(xs + ys, key) && key(u) == key(xs[i]) ==> u == xs[FindIndex(xs, key, key(xs[i]))]
  {
    assert (xs + ys)[i] == xs[i];
    DedupKeepsFirst(xs + ys, key, i);
    FindIndexInPrefix(xs, ys, key, i);
    var g := FindIndex(xs, key, key(xs[i]));
    assert (xs + ys)[g] == xs[g];
  }

  /** A tag of the main document survives the merge unchanged when it is the first with its name. */
  lemma MainTagsWin<V>(main: Document<V>, auth: Document<V>, t: Tag)
    requires main.tags.Some? && t in main.tags.value
    ensures exists u :: u in MergeDocuments(main, auth).tags.value && u.name == t.name
    ensures forall u :: u in MergeDocuments(main, auth).tags.value && u.name == t.name ==>
      u == main.tags.value[FindIndex(main.tags.value, TagName, t.name)]
  {
    MergedTagsWin(main.tags.value, OrNone(auth.tags), t);
    assert MergeDocuments(main, auth).tags.value == Dedup(main.tags.value + OrNone(auth.tags), TagName);
  }

  /** Merging tag lists keeps, for each tag of the first list, the first tag of that list with its name. */
  lemma MergedTagsWin(tags: seq<Tag>, extra: seq<Tag>, t: Tag)
    requires t in tags
    ensures exists u :: u in Dedup(tags + extra, TagName) && u.name == t.name
    ensures forall u :: u in Dedup(tags + extra, TagName) && u.name == t.name ==>
      u == tags[FindIndex(tags, TagName, t.name)]
  {
    var i :| 0 <= i < |tags| && tags[i] == t;
    DedupPrefixWins(tags, extra, TagName, i);
    var u0 :| u0 in Dedup(tags + extra, TagName) && TagName(u0) == TagName(t);
  }
}
