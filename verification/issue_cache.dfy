/**
 * The issue-key cache: a map from "type name followed by summary" to the
 * backend's issue key, seeded from one search of the project's existing
 * issues for the version being imported.
 */
module IssueCache {
  import opened Wrappers
  import opened Dict

  /** The three levels of the imported hierarchy. */
  datatype IssueType = Epic | Task | Subtask

  /** The issue-type names the backend is configured with: "Epic", and the
      Chinese labels for task ("任务") and subtask ("子任务"). */
  function TypeName(t: IssueType): string
  {
    match t
    case Epic => "Epic"
    case Task => "\U{4EFB}\U{52A1}"
    case Subtask => "\U{5B50}\U{4EFB}\U{52A1}"
  }

  /** The cache is keyed by the plain concatenation of type name and summary. */
  function CacheKey(typeName: string, summary: string): string
  {
    typeName + summary
  }

  /** The cache key of an issue of one of the three imported types. */
  function Key(t: IssueType, summary: string): string
  {
    CacheKey(TypeName(t), summary)
  }

  /** For the three configured type names the concatenated key still tells
      the type and the summary apart: the names start with different
      characters, so none is a prefix of another. */
  lemma KeyInjective(t1: IssueType, s1: string, t2: IssueType, s2: string)
    ensures Key(t1, s1) == Key(t2, s2) <==> t1 == t2 && s1 == s2
  {
    assert Key(t1, s1)[0] == TypeName(t1)[0];
    assert Key(t2, s2)[0] == TypeName(t2)[0];
    assert Key(t1, s1)[|TypeName(t1)|..] == s1;
    assert Key(t2, s2)[|TypeName(t2)|..] == s2;
  }

  /** The key is not a pair: moving the first character of a summary onto
      the end of the type name gives another (type name, summary) pair with
      the same key, so a search hit of a differently named type can stand in
      for an issue the importer looks for. */
  lemma ConcatenatedKeyAliases(t: IssueType, s: string)
    requires |s| > 0
    ensures CacheKey(TypeName(t) + [s[0]], s[1..]) == Key(t, s)
    ensures TypeName(t) + [s[0]] != TypeName(t)
  {
    assert TypeName(t) + [s[0]] + s[1..] == TypeName(t) + s;
  }

  /** One issue of the search response: its type name, summary and key. */
  datatype SearchHit = SearchHit(typeName: string, summary: string, key: string)

  function HitKey(h: SearchHit): string
  {
    CacheKey(h.typeName, h.summary)
  }

  ghost function HitKeys(hits: seq<SearchHit>): set<string>
  {
    set i | 0 <= i < |hits| :: HitKey(hits[i])
  }

  /** The issues of a search response; a response without an issue list
      contributes none. */
  function Listed(response: Option<seq<SearchHit>>): seq<SearchHit>
  {
    response.GetOr([])
  }

  function HitEntries(hits: seq<SearchHit>): (ps: Entries)
    ensures |ps| == |hits|
    ensures forall i :: 0 <= i < |hits| ==> ps[i] == (HitKey(hits[i]), hits[i].key)
  {
    seq(|hits|, i requires 0 <= i < |hits| => (HitKey(hits[i]), hits[i].key))
  }

  /** The cache built from the search response: every listed issue is an
      entry; when two issues share a key the later one wins; a response
      without an issue list leaves the cache empty. */
  function Seed(response: Option<seq<SearchHit>>): (keys: map<string, string>)
    ensures response.None? ==> keys == map[]
    ensures keys.Keys == HitKeys(Listed(response))
    ensures forall i :: 0 <= i < |Listed(response)| && (forall j :: i < j < |Listed(response)| ==> HitKey(Listed(response)[j]) != HitKey(Listed(response)[i]))
              ==> keys[HitKey(Listed(response)[i])] == Listed(response)[i].key
  {
    var hits := Listed(response);
    var ps := HitEntries(hits);
    assert KeysOf(ps) == HitKeys(hits) by {
      forall k | k in KeysOf(ps) ensures k in HitKeys(hits) {
        var i :| 0 <= i < |ps| && ps[i].0 == k;
        assert HitKey(hits[i]) == k;
      }
      forall k | k in HitKeys(hits) ensures k in KeysOf(ps) {
        var i :| 0 <= i < |hits| && HitKey(hits[i]) == k;
        assert ps[i].0 == k;
      }
    }
    forall i | 0 <= i < |hits| && (forall j :: i < j < |hits| ==> HitKey(hits[j]) != HitKey(hits[i]))
      ensures LastFor(ps, i)
    {
    }
    Assign(map[], ps)
  }
}
