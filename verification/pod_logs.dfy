/** The log check of the stats-extender integration test
    (getStatsEmitterLogs and validatePodLogging): the logs of every pod whose
    name has the emitter's prefix are fetched and concatenated in list order,
    and the result must contain the marker "report successfully sent". The
    Kubernetes client, the pod listing and each pod's log fetch are inputs. */
module PodLogs {
  import opened Wrappers

  newtype byte = b: int | 0 <= b < 256

  const Namespace: string := "tectonic-system"
  const PodPrefix: string := "tectonic-stats-emitter"

  /** The bytes of an ASCII string (Go's `[]byte(s)` for such strings). */
  function Ascii(s: string): (bs: seq<byte>)
    requires forall i :: 0 <= i < |s| ==> s[i] as int < 128
    ensures |bs| == |s|
    ensures forall i :: 0 <= i < |s| ==> bs[i] as int == s[i] as int
  {
    seq(|s|, i requires 0 <= i < |s| => s[i] as int as byte)
  }

  const Marker: seq<byte> := Ascii("report successfully sent")

  /** The outcome of fetching one pod's logs from its first container: the
      request failed, or it returned a status code and, when the body could be
      read, the log bytes. */
  datatype Fetch = RequestFailed | Response(statusCode: int, raw: Option<seq<byte>>)

  /** A listed pod: its name, its containers' names, and what fetching the
      logs of its first container gives. */
  datatype Pod = Pod(name: string, containers: seq<string>, fetch: Fetch)

  /** The errors of validatePodLogging. */
  datatype PodLogError =
    | ListFailed
    | NoContainers(pod: string)
    | LogRequestFailed
    | BadStatus(statusCode: int)
    | LogReadFailed
    | NoPods(prefix: string, namespace: string)

  /** The errors of getStatsEmitterLogs. */
  datatype StatsLogError =
    | ClientUnavailable
    | GatherFailed(cause: PodLogError)
    | MarkerMissing

  /** Go's `x / 100` on int, which truncates toward zero. */
  function GoQuo100(x: int): (q: int)
    ensures -100 < x - 100 * q < 100
    ensures (x - 100 * q) * x >= 0
  {
    if x >= 0 then x / 100 else -((-x) / 100)
  }

  /** `statusCode/100 != 2` rejects exactly the codes outside 200..299. */
  lemma StatusClassIs2xx(code: int)
    ensures GoQuo100(code) == 2 <==> 200 <= code < 300
  {
  }

  predicate Matches(p: Pod, prefix: string) {
    prefix <= p.name
  }

  /** What stops the aggregation at pod `p`, if anything. */
  function PodError(p: Pod): (e: Option<PodLogError>)
    ensures e.None? <==>
              && |p.containers| > 0
              && p.fetch.Response?
              && 200 <= p.fetch.statusCode < 300
              && p.fetch.raw.Some?
    ensures |p.containers| == 0 ==> e == Some(NoContainers(p.name))
  {
    if |p.containers| == 0 then Some(NoContainers(p.name))
    else match p.fetch
      case RequestFailed => Some(LogRequestFailed)
      case Response(code, raw) =>
        if GoQuo100(code) != 2 then Some(BadStatus(code))
        else if raw.None? then Some(LogReadFailed)
        else None
  }

  /** The logs of a pod whose fetch succeeded. */
  function PodLogsOf(p: Pod): seq<byte>
    requires PodError(p).None?
  {
    p.fetch.raw.value
  }

  /** Every matching pod among `pods` can be read. */
  predicate AllMatchingReadable(pods: seq<Pod>, prefix: string) {
    forall i :: 0 <= i < |pods| && Matches(pods[i], prefix) ==> PodError(pods[i]).None?
  }

  /** The logs of the matching pods, concatenated in list order. */
  function Gathered(pods: seq<Pod>, prefix: string): seq<byte>
    requires AllMatchingReadable(pods, prefix)
  {
    if pods == [] then []
    else
      var last := pods[|pods| - 1];
      assert forall i :: 0 <= i < |pods| - 1 ==> pods[..|pods| - 1][i] == pods[i];
      Gathered(pods[..|pods| - 1], prefix) + (if Matches(last, prefix) then PodLogsOf(last) else [])
  }

  /** Pod `k` is the first matching pod that cannot be read. */
  predicate FirstFailing(pods: seq<Pod>, prefix: string, k: int) {
    && 0 <= k < |pods|
    && Matches(pods[k], prefix)
    && PodError(pods[k]).Some?
    && AllMatchingReadable(pods[..k], prefix)
  }

  /** validatePodLogging over the listing (`None` when listing failed). */
  method ValidatePodLogging(listing: Option<seq<Pod>>, namespace: string, prefix: string)
    returns (logs: seq<byte>, err: Option<PodLogError>)
    ensures listing.None? ==> logs == [] && err == Some(ListFailed)
    ensures listing.Some? ==>
              (err.None? <==>
                 (exists i :: 0 <= i < |listing.value| && Matches(listing.value[i], prefix)) &&
                 AllMatchingReadable(listing.value, prefix))
    ensures listing.Some? && err.None? ==> logs == Gathered(listing.value, prefix)
    ensures listing.Some? && (forall i :: 0 <= i < |listing.value| ==> !Matches(listing.value[i], prefix)) ==>
              logs == [] && err == Some(NoPods(prefix, namespace))
    ensures listing.Some? ==>
              forall k :: FirstFailing(listing.value, prefix, k) ==>
                err == PodError(listing.value[k]) && logs == Gathered(listing.value[..k], prefix)
  {
    logs := [];
    if listing.None? {
      return logs, Some(ListFailed);
    }
    var pods := listing.value;
    var found := false;
    var k := 0;
    while k < |pods|
      invariant 0 <= k <= |pods|
      invariant AllMatchingReadable(pods[..k], prefix)
      invariant logs == Gathered(pods[..k], prefix)
      invariant found <==> exists i :: 0 <= i < k && Matches(pods[i], prefix)
    {
      var p := pods[k];
      assert pods[..k + 1][..k] == pods[..k];
      if !Matches(p, prefix) {
        k := k + 1;
        continue;
      }
      found := true;
      var e := PodError(p);
      if e.Some? {
        FirstFailingUnique(pods, prefix, k);
        return logs, e;
      }
      logs := logs + PodLogsOf(p);
      k := k + 1;
    }
    assert pods[..k] == pods;
    if !found {
      GatheredNoMatch(pods, prefix);
      return logs, Some(NoPods(prefix, namespace));
    }
    err := None;
  }

  /** There is at most one first failing pod. */
  lemma FirstFailingUnique(pods: seq<Pod>, prefix: string, k: int)
    requires FirstFailing(pods, prefix, k)
    ensures forall j :: FirstFailing(pods, prefix, j) ==> j == k
  {
  }

  /** Without a matching pod nothing is gathered. */
  lemma {:induction false} GatheredNoMatch(pods: seq<Pod>, prefix: string)
    requires forall i :: 0 <= i < |pods| ==> !Matches(pods[i], prefix)
    ensures AllMatchingReadable(pods, prefix) && Gathered(pods, prefix) == []
  {
    if pods != [] {
      var init := pods[..|pods| - 1];
      assert forall i :: 0 <= i < |init| ==> init[i] == pods[i];
      GatheredNoMatch(init, prefix);
    }
  }

  /** Gathering distributes over the listing: the logs of an earlier part come
      first. */
  lemma {:induction false} GatheredAppend(a: seq<Pod>, b: seq<Pod>, prefix: string)
    requires AllMatchingReadable(a + b, prefix)
    ensures AllMatchingReadable(a, prefix) && AllMatchingReadable(b, prefix)
    ensures Gathered(a + b, prefix) == Gathered(a, prefix) + Gathered(b, prefix)
  {
    assert forall i :: 0 <= i < |a| ==> (a + b)[i] == a[i];
    assert forall i :: 0 <= i < |b| ==> (a + b)[|a| + i] == b[i];
    if b == [] {
      assert a + b == a;
    } else {
      var init, last := b[..|b| - 1], b[|b| - 1];
      assert (a + b)[..|a + b| - 1] == a + init;
      assert (a + b)[|a + b| - 1] == last;
      assert forall i :: 0 <= i < |init| ==> init[i] == b[i];
      assert forall i :: 0 <= i < |a + init| ==> (a + init)[i] == (a + b)[i];
      GatheredAppend(a, init, prefix);
      var tail := if Matches(last, prefix) then PodLogsOf(last) else [];
      assert Gathered(b, prefix) == Gathered(init, prefix) + tail;
      assert Gathered(a + b, prefix) == Gathered(a + init, prefix) + tail;
    }
  }

  // ---------------------------------------------------------- substring search

  /** `bytes.Contains(hay, needle)`. */
  predicate Contains(hay: seq<byte>, needle: seq<byte>)
    ensures Contains(hay, needle) ==> |needle| <= |hay|
    ensures needle == [] ==> Contains(hay, needle)
    decreases |hay|
  {
    needle <= hay || (hay != [] && Contains(hay[1..], needle))
  }

  /** `needle` occurs in `hay` at offset `i`. */
  predicate OccursAt(hay: seq<byte>, needle: seq<byte>, i: int) {
    0 <= i && i + |needle| <= |hay| && hay[i..i + |needle|] == needle
  }

  /** The search finds the needle exactly when it occurs at some offset. */
  lemma {:induction false} ContainsIff(hay: seq<byte>, needle: seq<byte>)
    ensures Contains(hay, needle) <==> exists i :: OccursAt(hay, needle, i)
    decreases |hay|
  {
    if needle <= hay {
      assert OccursAt(hay, needle, 0);
    } else if hay != [] {
      ContainsIff(hay[1..], needle);
      if exists i :: OccursAt(hay, needle, i) {
        var i :| OccursAt(hay, needle, i);
        assert i != 0;
        assert OccursAt(hay[1..], needle, i - 1);
      }
      if Contains(hay[1..], needle) {
        var i :| OccursAt(hay[1..], needle, i);
        assert OccursAt(hay, needle, i + 1);
      }
    }
  }

  /** A needle found in a part of the bytes is found in the whole. */
  lemma ContainsInContext(a: seq<byte>, m: seq<byte>, b: seq<byte>, needle: seq<byte>)
    requires Contains(m, needle)
    ensures Contains(a + m + b, needle)
  {
    ContainsIff(m, needle);
    var i :| OccursAt(m, needle, i);
    assert (a + m + b)[|a| + i..|a| + i + |needle|] == m[i..i + |needle|];
    assert OccursAt(a + m + b, needle, |a| + i);
    ContainsIff(a + m + b, needle);
  }

  // ------------------------------------------------------------ the whole check

  /** getStatsEmitterLogs, with the client creation and the pod listing as
      inputs. */
  method GetStatsEmitterLogs(clientOk: bool, listing: Option<seq<Pod>>) returns (r: Outcome<StatsLogError>)
    ensures !clientOk ==> r == Fail(ClientUnavailable)
    ensures r.Pass? <==>
              && clientOk && listing.Some?
              && (exists i :: 0 <= i < |listing.value| && Matches(listing.value[i], PodPrefix))
              && AllMatchingReadable(listing.value, PodPrefix)
              && Contains(Gathered(listing.value, PodPrefix), Marker)
    ensures clientOk && listing.None? ==> r == Fail(GatherFailed(ListFailed))
    ensures clientOk && listing.Some? &&
            (forall i :: 0 <= i < |listing.value| ==> !Matches(listing.value[i], PodPrefix)) ==>
              r == Fail(GatherFailed(NoPods(PodPrefix, Namespace)))
    ensures clientOk && listing.Some? ==>
              forall k :: FirstFailing(listing.value, PodPrefix, k) ==>
                r == Fail(GatherFailed(PodError(listing.value[k]).value))
    ensures r == Fail(MarkerMissing) <==>
              && clientOk && listing.Some?
              && (exists i :: 0 <= i < |listing.value| && Matches(listing.value[i], PodPrefix))
              && AllMatchingReadable(listing.value, PodPrefix)
              && !Contains(Gathered(listing.value, PodPrefix), Marker)
  {
    if !clientOk {
      return Fail(ClientUnavailable);
    }
    var logs, err := ValidatePodLogging(listing, Namespace, PodPrefix);
    if err.Some? {
      return Fail(GatherFailed(err.value));
    }
    if !Contains(logs, Marker) {
      return Fail(MarkerMissing);
    }
    return Pass;
  }

  /** When every emitter pod can be read, one pod that logged the marker is
      enough for the check to pass. */
  lemma OnePodWithMarkerSuffices(pods: seq<Pod>, k: int)
    requires 0 <= k < |pods| && Matches(pods[k], PodPrefix)
    requires AllMatchingReadable(pods, PodPrefix)
    requires Contains(PodLogsOf(pods[k]), Marker)
    ensures Contains(Gathered(pods, PodPrefix), Marker)
  {
    var before, after := pods[..k], pods[k + 1..];
    assert pods == before + [pods[k]] + after;
    GatheredAppend(before + [pods[k]], after, PodPrefix);
    GatheredAppend(before, [pods[k]], PodPrefix);
    assert [pods[k]][..0] == [];
    assert Gathered([pods[k]], PodPrefix) == PodLogsOf(pods[k]);
    ContainsInContext(Gathered(before, PodPrefix), PodLogsOf(pods[k]), Gathered(after, PodPrefix), Marker);
  }
}
