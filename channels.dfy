/** Resolving the protocol channel a connection talks on, from its request URL. */
module Channels {
  import opened Wire

  /** A channel of the API document: its id and the address (path) it is served at. */
  datatype Channel = Channel(id: string, address: string)

  /** The part of a request URL before its first `?`: the path without the query string. */
  function StripQuery(url: string): (path: string)
    ensures path <= url
    ensures '?' !in path
    ensures |path| < |url| ==> url[|path|] == '?'
  {
    if url == [] || url[0] == '?' then [] else [url[0]] + StripQuery(url[1..])
  }

  /** The three properties of `StripQuery` determine it: any prefix without `?`
      that stops at a `?` or at the end of the URL is the stripped path. */
  lemma {:induction false} StripQueryUnique(url: string, path: string)
    requires path <= url
    requires '?' !in path
    requires |path| < |url| ==> url[|path|] == '?'
    ensures path == StripQuery(url)
  {
    if url != [] && url[0] != '?' {
      assert path[0] == url[0];
      assert path[1..] <= url[1..];
      assert '?' !in path[1..] by {
        forall k | 0 <= k < |path[1..]| ensures path[1..][k] != '?' {
          assert path[1..][k] == path[k + 1];
        }
      }
      StripQueryUnique(url[1..], path[1..]);
      assert path == [path[0]] + path[1..];
    }
  }

  /** True when no channel before position `k` is served at `path`. */
  predicate NoneBefore(channels: seq<Channel>, path: string, k: int)
    requires 0 <= k <= |channels|
  {
    forall j :: 0 <= j < k ==> channels[j].address != path
  }

  /** The id of the first channel, in list order, whose address is `path`. */
  function FindChannel(channels: seq<Channel>, path: string): (r: Option<string>)
    ensures r.None? <==> forall k :: 0 <= k < |channels| ==> channels[k].address != path
    ensures r.Some? ==> exists k :: 0 <= k < |channels| && channels[k].address == path
                                   && r.value == channels[k].id && NoneBefore(channels, path, k)
  {
    if channels == [] then None
    else if channels[0].address == path then Some(channels[0].id)
    else
      var r := FindChannel(channels[1..], path);
      assert forall k :: 1 <= k < |channels| ==> channels[k] == channels[1..][k - 1];
      if r.Some? then
        var k' :| 0 <= k' < |channels[1..]| && channels[1..][k'].address == path
                  && r.value == channels[1..][k'].id && NoneBefore(channels[1..], path, k');
        assert channels[k' + 1].address == path && NoneBefore(channels, path, k' + 1);
        r
      else
        r
  }

  /** The linear search of the channel list, returning at the first match. */
  method GetChannelByAddress(channels: seq<Channel>, path: string) returns (r: Option<string>)
    ensures r == FindChannel(channels, path)
  {
    var index := 0;
    while index < |channels|
      invariant 0 <= index <= |channels|
      invariant NoneBefore(channels, path, index)
    {
      if channels[index].address == path {
        r := Some(channels[index].id);
        FindChannelAt(channels, path, index);
        return;
      }
      index := index + 1;
    }
    r := None;
  }

  /** When position `k` is the first match, `FindChannel` returns its id. */
  lemma FindChannelAt(channels: seq<Channel>, path: string, k: nat)
    requires k < |channels| && channels[k].address == path
    requires NoneBefore(channels, path, k)
    ensures FindChannel(channels, path) == Some(channels[k].id)
  {
    var r := FindChannel(channels, path);
    var k' :| 0 <= k' < |channels| && channels[k'].address == path
              && r.value == channels[k'].id && NoneBefore(channels, path, k');
    assert k' == k;
  }
}
