/** Fetching one document over a server chain: retries and doubling backoff on the head, one try for each
    fallback (internal/source/resolver.go), and the session's preference over the policy order
    (internal/service/preferred.go, newResolver in internal/service/service.go). */
module Resolver {
  import opened Json

  datatype Answer<D> = Document(doc: D) | NotFound | Failed

  /** Served by source `at` (0 is the head), nobody served it, or the context ended. */
  datatype Outcome<D> = Served(at: nat, doc: D) | Unserved(notFound: bool) | Cancelled

  function Pow2(n: nat): (r: nat)
    ensures r >= 1
  {
    if n == 0 then 1 else 2 * Pow2(n - 1)
  }

  /** resolveWith. head(i) is the head's answer to attempt i, fallback(j) the answer of the j-th fallback,
      cancelled(n) what the n-th look at the context shows. */
  method ResolveWith<D>(attempts: int, base: int, head: nat -> Answer<D>, count: nat, fallback: nat -> Answer<D>,
                        cancelled: nat -> bool)
      returns (out: Outcome<D>, asked: nat, tried: nat, waited: nat, headError: Option<Answer<D>>)
    ensures var limit := if attempts < 1 then 3 else attempts; var unit := if base <= 0 then 5 else base;
      && 1 <= asked <= limit && tried <= count
      && (forall i | 0 <= i < asked - 1 :: head(i).Failed?)
      && waited == unit * (Pow2(asked - 1) - 1)
      && (out.Served? && out.at == 0 ==> head(asked - 1) == Document(out.doc) && tried == 0 && headError == None)
      && (out.Served? && out.at > 0 ==> out.at == tried && fallback(tried - 1) == Document(out.doc))
      && (!(out.Served? && out.at == 0) ==> headError == Some(head(asked - 1)) && !head(asked - 1).Document?)
      && (tried > 0 ==> asked == limit || head(asked - 1).NotFound?)
      && (forall j | 0 <= j < tried - 1 :: !fallback(j).Document?)
      && (out.Unserved? ==> tried == count && (asked == limit || head(asked - 1).NotFound?))
      && (out.Unserved? ==> forall j | 0 <= j < count :: !fallback(j).Document?)
      && (out.Unserved? ==> (out.notFound <==>
            head(asked - 1).NotFound? || exists j :: 0 <= j < count && fallback(j).NotFound?))
      && (out.Cancelled? ==> exists n :: cancelled(n))
  {
    var limit := if attempts < 1 then 3 else attempts;
    var unit := if base <= 0 then 5 else base;
    var backoff: nat := unit;
    var looks: nat := 0;
    var lastNotFound := false;
    asked, tried, waited, headError := 0, 0, 0, None;
    while asked < limit
      invariant 0 <= asked <= limit
      invariant forall i | 0 <= i < asked :: head(i).Failed?
      invariant asked == 0 ==> waited == 0 && backoff == unit && headError == None
      invariant asked > 0 ==> waited == unit * (Pow2(asked - 1) - 1) && backoff == unit * Pow2(asked - 1)
      invariant asked > 0 ==> headError == Some(head(asked - 1)) && !lastNotFound
    {
      if asked > 0 {
        looks := looks + 1;
        if cancelled(looks - 1) {
          return Cancelled, asked, tried, waited, headError;
        }
        Doubling(unit, asked);
        waited := waited + backoff;
        backoff := backoff * 2;
      }
      var answer := head(asked);
      asked := asked + 1;
      if answer.Document? {
        return Served(0, answer.doc), asked, tried, waited, None;
      }
      lastNotFound := answer.NotFound?;
      headError := Some(answer);
      looks := looks + 1;
      if cancelled(looks - 1) {
        return Cancelled, asked, tried, waited, headError;
      }
      if answer.NotFound? {
        break;
      }
    }
    ghost var headNotFound := lastNotFound;
    while tried < count
      invariant 0 <= tried <= count
      invariant forall j | 0 <= j < tried :: !fallback(j).Document?
      invariant lastNotFound <==> headNotFound || exists j :: 0 <= j < tried && fallback(j).NotFound?
    {
      looks := looks + 1;
      if cancelled(looks - 1) {
        return Cancelled, asked, tried, waited, headError;
      }
      var answer := fallback(tried);
      tried := tried + 1;
      if answer.Document? {
        return Served(tried, answer.doc), asked, tried, waited, headError;
      }
      if answer.NotFound? {
        lastNotFound := true;
      }
    }
    out := Unserved(lastNotFound);
  }

  lemma Doubling(unit: nat, n: nat)
    requires n > 0
    ensures Pow2(n) == 2 * Pow2(n - 1)
    ensures unit * (Pow2(n - 1) - 1) + unit * Pow2(n - 1) == unit * (Pow2(n) - 1)
    ensures unit * Pow2(n - 1) * 2 == unit * Pow2(n)
  {}

  // ---- the session's preferred server ----

  /** A chain with one of its servers moved to the front. */
  ghost predicate Promoted(chain: seq<string>, p: string, r: seq<string>) {
    exists i :: 0 <= i < |chain| && chain[i] == p && p !in chain[..i] && r == [p] + chain[..i] + chain[i + 1..]
  }

  /** Promotion is a permutation that leaves the other servers in their order. */
  lemma PromotedIsPermutation(chain: seq<string>, p: string, r: seq<string>)
    requires Promoted(chain, p, r)
    ensures multiset(r) == multiset(chain) && |r| == |chain| && r[0] == p
    ensures Others(r, p) == Others(chain, p)
  {
    hide Others;
    var i :| 0 <= i < |chain| && chain[i] == p && p !in chain[..i] && r == [p] + chain[..i] + chain[i + 1..];
    var a, b := chain[..i], chain[i + 1..];
    assert chain == a + [p] + b;
    Regroup(a, b, p);
  }

  lemma Regroup(a: seq<string>, b: seq<string>, p: string)
    ensures multiset([p] + a + b) == multiset(a + [p] + b)
    ensures Others([p] + a + b, p) == Others(a + [p] + b, p)
  {
    hide Others;
    RegroupCounts(a, b, p);
    OthersConcat([p] + a, b, p);
    OthersConcat([p], a, p);
    OthersConcat(a + [p], b, p);
    OthersConcat(a, [p], p);
    OthersAlone(p);
    var o := Others(a, p);
    assert [] + o == o && o + [] == o;
  }

  lemma RegroupCounts(a: seq<string>, b: seq<string>, p: string)
    ensures multiset([p] + a + b) == multiset(a + [p] + b)
  {}

  lemma OthersAlone(p: string)
    ensures Others([p], p) == []
  {}

  function Others(chain: seq<string>, p: string): seq<string> {
    if chain == [] then [] else (if chain[0] == p then [] else [chain[0]]) + Others(chain[1..], p)
  }

  lemma {:induction false} OthersConcat(a: seq<string>, b: seq<string>, p: string)
    ensures Others(a + b, p) == Others(a, p) + Others(b, p)
  {
    if a == [] {
      assert a + b == b;
    } else {
      assert (a + b)[1..] == a[1..] + b;
      OthersConcat(a[1..], b, p);
    }
  }

  /** The others of a chain are its servers but for p, each where it was. */
  lemma OthersOmitOne(a: seq<string>, x: string, b: seq<string>, p: string)
    ensures Others(a + [x] + b, p) == Others(a, p) + (if x == p then [] else [x]) + Others(b, p)
  {
    OthersConcat(a + [x], b, p);
    OthersConcat(a, [x], p);
    assert Others([x], p) == if x == p then [] else [x];
    hide Others;
  }

  function UrlsOf(chain: seq<string>, url: string -> string): seq<string>
    decreases |chain|
  {
    if chain == [] then []
    else UrlsOf(chain[..|chain| - 1], url) + if url(chain[|chain| - 1]) == "" then [] else [url(chain[|chain| - 1])]
  }

  /** A server without a URL is skipped and changes nothing else. */
  lemma {:induction false} SilentServerIsSkipped(a: seq<string>, b: seq<string>, x: string, url: string -> string)
    requires url(x) == ""
    ensures UrlsOf(a + [x] + b, url) == UrlsOf(a + b, url)
    decreases |b|
  {
    if b == [] {
      assert (a + [x] + b)[..|a|] == a && a + b == a && UrlsOf(a, url) + [] == UrlsOf(a, url);
    } else {
      var init := b[..|b| - 1];
      SilentServerIsSkipped(a, init, x, url);
      assert (a + [x] + b)[..|a| + |b|] == a + [x] + init && (a + b)[..|a| + |b| - 1] == a + init;
    }
  }

  /** All others are asked, once each, in the order of the chain. */
  lemma {:induction false} ServersAreAskedInOrder(chain: seq<string>, url: string -> string)
    requires forall name <- chain :: url(name) != ""
    ensures |UrlsOf(chain, url)| == |chain| && forall i | 0 <= i < |chain| :: UrlsOf(chain, url)[i] == url(chain[i])
    decreases |chain|
  {
    if chain != [] {
      ServersAreAskedInOrder(chain[..|chain| - 1], url);
    }
  }

  class Session {
    var preferred: Option<string>
    var wakes: nat

    constructor ()
      ensures preferred == None && wakes == 0
    {
      preferred, wakes := None, 0;
    }

    /** A preference the chain no longer lists is forgotten. */
    method PreferredChain(chain: seq<string>) returns (r: seq<string>)
      modifies this`preferred
      ensures multiset(r) == multiset(chain)
      ensures old(preferred).Some? && old(preferred).value in chain ==>
        Promoted(chain, old(preferred).value, r) && preferred == old(preferred)
      ensures !(old(preferred).Some? && old(preferred).value in chain) ==> r == chain
      ensures chain != [] && preferred.Some? ==> preferred.value in chain && r[0] == preferred.value
    {
      if preferred.None? || chain == [] {
        return chain;
      }
      var p := preferred.value;
      if p == chain[0] {
        assert chain == [p] + chain[..0] + chain[0 + 1..];
        return chain;
      }
      var i := 0;
      while i < |chain| && chain[i] != p
        invariant 0 <= i <= |chain| && p !in chain[..i]
      {
        i := i + 1;
      }
      if i == |chain| {
        assert chain[..i] == chain;
        preferred := None;
        return chain;
      }
      r := [p] + chain[..i] + chain[i + 1..];
      assert Promoted(chain, p, r);
      PromotedIsPermutation(chain, p, r);
    }

    /** newResolver: the manifest URLs in the order they will be asked, of which only empty ones are left
        out; a chain without any keeps one empty URL that fails cleanly. */
    method SourceUrls(chain: seq<string>, url: string -> string) returns (urls: seq<string>, ghost order: seq<string>)
      modifies this`preferred
      ensures multiset(order) == multiset(chain)
      ensures old(preferred).Some? && old(preferred).value in chain ==> Promoted(chain, old(preferred).value, order)
      ensures !(old(preferred).Some? && old(preferred).value in chain) ==> order == chain
      ensures urls == if UrlsOf(order, url) == [] then [""] else UrlsOf(order, url)
    {
      hide Promoted, UrlsOf;
      var r := PreferredChain(chain);
      order := r;
      urls := NonEmptyUrls(r, url);
      if urls == [] {
        urls := [""];
      }
    }

    method NonEmptyUrls(chain: seq<string>, url: string -> string) returns (urls: seq<string>)
      ensures urls == UrlsOf(chain, url)
    {
      urls := [];
      for i := 0 to |chain|
        invariant urls == UrlsOf(chain[..i], url)
      {
        assert chain[..i + 1][..i] == chain[..i];
        if url(chain[i]) != "" {
          urls := urls + [url(chain[i])];
        }
      }
      assert chain[..|chain|] == chain;
    }

    /** serverFor: the first server of the chain with this manifest URL. */
    method ServerFor(chain: seq<string>, url: string -> string, answered: string) returns (server: Option<string>)
      ensures server.None? <==> forall name <- chain :: url(name) != answered
      ensures server.Some? ==> exists i :: (0 <= i < |chain| && chain[i] == server.value && url(chain[i]) == answered
        && forall j | 0 <= j < i :: url(chain[j]) != answered)
    {
      for i := 0 to |chain|
        invariant forall j | 0 <= j < i :: url(chain[j]) != answered
      {
        if url(chain[i]) == answered {
          return Some(chain[i]);
        }
      }
      return None;
    }

    /** notePreferredServer: a fallback that answered becomes the preference unless the head said 404; the
        policy head answering drops it; the presence channel is woken exactly on a change. */
    method NotePreferredServer<D>(chain: seq<string>, url: string -> string, headError: Option<Answer<D>>,
                                  answered: string)
      requires "" !in chain && preferred != Some("")
      modifies this
      ensures preferred != Some("")
      ensures wakes == old(wakes) + if preferred == old(preferred) then 0 else 1
      ensures headError == Some(NotFound) || (forall name <- chain :: url(name) != answered) ==>
        preferred == old(preferred)
      ensures headError != Some(NotFound) && (exists name <- chain :: url(name) == answered) ==>
        if url(chain[0]) == answered then preferred == None
        else
          && preferred.Some? && preferred.value in chain
          && url(preferred.value) == answered && preferred.value != chain[0]
    {
      if chain == [] || headError == Some(NotFound) {
        return;
      }
      var served := ServerFor(chain, url, answered);
      if served.None? {
        return;
      }
      if served.value == chain[0] {
        if preferred.Some? {
          preferred := None;
          wakes := wakes + 1;
        }
        return;
      }
      if served == preferred {
        return;
      }
      preferred := served;
      wakes := wakes + 1;
    }
  }
}
