/**
 Publishing the artifacts of a finished run: node artifact identifiers are checked and
 rewritten to identifiers of the gateway run, all in one transaction.
 */
module Artifacts {
  import opened Wrappers

  /** A manifest entry as received; fields of the wrong type are absent. */
  datatype Item =
    | Malformed
    | Item(artifactId: Option<string>, mediaType: Option<string>, sizeBytes: Option<int>, sha256: Option<string>)

  datatype Row = Row(gatewayRun: string, nodeArtifact: string, mediaType: string, sizeBytes: int, sha256: string)

  datatype Rewritten = Rewritten(artifactId: string, contentPath: string, item: Item)

  const MAX_ARTIFACT_BYTES := 524_288_000

  const ALLOWED_MEDIA_TYPES: set<string> := {
    "image/png", "video/mp4", "model/gltf-binary", "model/stl", "application/sla", "application/json", "application/octet-stream"
  }

  /** Not empty, no separators, and not starting with a dot or a colon. */
  predicate SafeFile(name: string) {
    && name != "" && name[0] != ':' && name[0] != '.'
    && forall i :: 0 <= i < |name| ==> name[i] != '/' && name[i] != '\\'
  }

  predicate Sha256Hex(s: string) {
    |s| == 64 && forall i :: 0 <= i < |s| ==> '0' <= s[i] <= '9' || 'a' <= s[i] <= 'f'
  }

  predicate HasNodeId(nodeRun: string, item: Item) {
    item.Item? && item.artifactId.Some? && nodeRun + ":" <= item.artifactId.value
  }

  function FileOf(nodeRun: string, item: Item): (name: string)
    requires HasNodeId(nodeRun, item)
    ensures nodeRun + ":" + name == item.artifactId.value
  {
    item.artifactId.value[|nodeRun| + 1..]
  }

  predicate Acceptable(nodeRun: string, item: Item) {
    && HasNodeId(nodeRun, item) && SafeFile(FileOf(nodeRun, item))
    && item.mediaType.Some? && item.mediaType.value in ALLOWED_MEDIA_TYPES
    && item.sizeBytes.Some? && 0 < item.sizeBytes.value <= MAX_ARTIFACT_BYTES
    && item.sha256.Some? && Sha256Hex(item.sha256.value)
  }

  function ExternalId(gatewayRun: string, name: string): string {
    gatewayRun + ":" + name
  }

  function IdOf(gatewayRun: string, nodeRun: string, item: Item): string
    requires HasNodeId(nodeRun, item)
  {
    ExternalId(gatewayRun, FileOf(nodeRun, item))
  }

  function RowOf(gatewayRun: string, nodeRun: string, item: Item): Row
    requires Acceptable(nodeRun, item)
  {
    Row(gatewayRun, item.artifactId.value, item.mediaType.value, item.sizeBytes.value, item.sha256.value)
  }

  function RewrittenOf(gatewayRun: string, nodeRun: string, item: Item): Rewritten
    requires HasNodeId(nodeRun, item)
  {
    var id := IdOf(gatewayRun, nodeRun, item);
    Rewritten(id, "/compute/v1/artifacts?artifactId=" + id, item)
  }

  /** Each row belongs to a run and names a safe file of that run's node run. */
  ghost predicate Bound(rows: map<string, Row>, nodeRunOf: map<string, string>) {
    forall id :: id in rows ==> BoundRow(id, rows[id], nodeRunOf)
  }

  ghost predicate BoundRow(id: string, row: Row, nodeRunOf: map<string, string>) {
    row.gatewayRun in nodeRunOf && exists name :: FileRow(id, row, nodeRunOf[row.gatewayRun], name)
  }

  predicate FileRow(id: string, row: Row, nodeRun: string, name: string) {
    SafeFile(name) && id == ExternalId(row.gatewayRun, name) && row.nodeArtifact == nodeRun + ":" + name
  }

  /** Exactly the identifiers that begin with the node run and a colon are this run's. */
  lemma NodeIdSplits(nodeRun: string, item: Item)
    ensures HasNodeId(nodeRun, item) <==>
            exists name :: item.Item? && item.artifactId == Some(nodeRun + ":" + name)
  {
    if HasNodeId(nodeRun, item) {
      assert item.artifactId == Some(nodeRun + ":" + FileOf(nodeRun, item));
    }
  }

  /** What an entry of a manifest must look like to be published. */
  lemma AcceptableMeans(nodeRun: string, item: Item, name: string)
    requires item.Item? && item.artifactId == Some(nodeRun + ":" + name)
    ensures Acceptable(nodeRun, item) <==>
            && name != "" && name[0] != ':' && name[0] != '.' && '/' !in name && '\\' !in name
            && item.mediaType.Some? && item.mediaType.value in
                 {"image/png", "video/mp4", "model/gltf-binary", "model/stl", "application/sla", "application/json",
                  "application/octet-stream"}
            && item.sizeBytes.Some? && 1 <= item.sizeBytes.value <= 524_288_000
            && item.sha256.Some? && |item.sha256.value| == 64
            && forall c :: c in item.sha256.value ==> c in "0123456789abcdef"
  {
    hide Sha256Hex;
    assert FileOf(nodeRun, item) == name;
    if item.sha256.Some? {
      HexDigits(item.sha256.value);
    }
  }

  /** An accepted entry is handed out under the gateway run and the same file name. */
  lemma RewrittenMeans(gatewayRun: string, nodeRun: string, item: Item, name: string)
    requires item.Item? && item.artifactId == Some(nodeRun + ":" + name)
    ensures var w := RewrittenOf(gatewayRun, nodeRun, item);
            && w.artifactId == gatewayRun + ":" + name && w.item == item
            && w.contentPath == "/compute/v1/artifacts?artifactId=" + w.artifactId
  {
    assert FileOf(nodeRun, item) == name;
  }

  lemma HexDigits(s: string)
    ensures Sha256Hex(s) <==> |s| == 64 && forall c :: c in s ==> c in "0123456789abcdef"
  {
    forall i | 0 <= i < |s|
      ensures s[i] in s && (s[i] in "0123456789abcdef" <==> '0' <= s[i] <= '9' || 'a' <= s[i] <= 'f')
    {
      HexDigit(s[i]);
    }
    if Sha256Hex(s) {
      forall c | c in s
        ensures c in "0123456789abcdef"
      {
        var i :| 0 <= i < |s| && s[i] == c;
      }
    }
  }

  lemma HexDigit(c: char)
    ensures c in "0123456789abcdef" <==> '0' <= c <= '9' || 'a' <= c <= 'f'
  {
    var digits := "0123456789abcdef";
    if '0' <= c <= '9' {
      assert digits[c as int - '0' as int] == c;
    } else if 'a' <= c <= 'f' {
      assert digits[10 + c as int - 'a' as int] == c;
    }
  }

  class ArtifactTable {
    var rows: map<string, Row>

    constructor ()
      ensures rows == map[]
    {
      rows := map[];
    }

    /** One bad entry and nothing of the manifest is kept; a row once written is never replaced. */
    method PersistManifest(gatewayRun: string, nodeRun: string, items: seq<Item>) returns (r: Result<seq<Rewritten>>)
      modifies this
      ensures r.Err? <==> exists i :: 0 <= i < |items| && !Acceptable(nodeRun, items[i])
      ensures r.Err? ==> rows == old(rows)
      ensures r.Ok? ==> |r.value| == |items| &&
                        forall i :: 0 <= i < |items| ==> r.value[i] == RewrittenOf(gatewayRun, nodeRun, items[i])
      ensures r.Ok? ==> forall i :: 0 <= i < |items| ==> IdOf(gatewayRun, nodeRun, items[i]) in rows
      ensures forall id :: id in old(rows) ==> id in rows && rows[id] == old(rows)[id]
      ensures forall id :: id in rows && id !in old(rows) ==>
                exists i :: 0 <= i < |items| && Acceptable(nodeRun, items[i]) &&
                  id == IdOf(gatewayRun, nodeRun, items[i]) && rows[id] == RowOf(gatewayRun, nodeRun, items[i])
      ensures forall id :: id in rows && id !in old(rows) ==>
                exists i :: 0 <= i < |items| && items[i].Item? &&
                  Some(rows[id].nodeArtifact) == items[i].artifactId && rows[id].gatewayRun == gatewayRun &&
                  Some(rows[id].mediaType) == items[i].mediaType && Some(rows[id].sizeBytes) == items[i].sizeBytes &&
                  Some(rows[id].sha256) == items[i].sha256
      ensures forall nodeRunOf :: Bound(old(rows), nodeRunOf) && gatewayRun in nodeRunOf && nodeRunOf[gatewayRun] == nodeRun ==>
                Bound(rows, nodeRunOf)
    {
      hide SafeFile, Sha256Hex, Bound, RewrittenOf, RowOf;
      var pending := rows;
      var rewritten := [];
      for i := 0 to |items|
        invariant rows == old(rows) && |rewritten| == i
        invariant forall j :: 0 <= j < i ==> Acceptable(nodeRun, items[j]) && IdOf(gatewayRun, nodeRun, items[j]) in pending
        invariant forall j :: 0 <= j < i ==> rewritten[j] == RewrittenOf(gatewayRun, nodeRun, items[j])
        invariant forall id :: id in rows ==> id in pending && pending[id] == rows[id]
        invariant forall id :: id in pending && id !in rows ==>
                    exists j :: 0 <= j < i && id == IdOf(gatewayRun, nodeRun, items[j]) &&
                      pending[id] == RowOf(gatewayRun, nodeRun, items[j])
      {
        var item := items[i];
        if !HasNodeId(nodeRun, item) {
          return Err;
        }
        if !Acceptable(nodeRun, item) {
          return Err;
        }
        var externalId := IdOf(gatewayRun, nodeRun, item);
        if externalId !in pending {
          pending := pending[externalId := RowOf(gatewayRun, nodeRun, item)];
        }
        rewritten := rewritten + [RewrittenOf(gatewayRun, nodeRun, item)];
      }
      rows := pending;
      r := Ok(rewritten);
      NewRowsAsSent(old(rows), rows, gatewayRun, nodeRun, items);
      forall nodeRunOf: map<string, string>
        | Bound(old(rows), nodeRunOf) && gatewayRun in nodeRunOf && nodeRunOf[gatewayRun] == nodeRun
        ensures Bound(rows, nodeRunOf)
      {
        StaysBound(old(rows), rows, gatewayRun, nodeRun, items, nodeRunOf);
      }
    }
  }

  /** A new row holds the fields of its manifest entry. */
  lemma NewRowsAsSent(before: map<string, Row>, after: map<string, Row>, gatewayRun: string, nodeRun: string, items: seq<Item>)
    requires forall j :: 0 <= j < |items| ==> Acceptable(nodeRun, items[j])
    requires forall id :: id in after && id !in before ==>
               exists j :: 0 <= j < |items| && Acceptable(nodeRun, items[j]) &&
                 id == IdOf(gatewayRun, nodeRun, items[j]) && after[id] == RowOf(gatewayRun, nodeRun, items[j])
    ensures forall id :: id in after && id !in before ==>
              exists i :: 0 <= i < |items| && items[i].Item? &&
                Some(after[id].nodeArtifact) == items[i].artifactId && after[id].gatewayRun == gatewayRun &&
                Some(after[id].mediaType) == items[i].mediaType && Some(after[id].sizeBytes) == items[i].sizeBytes &&
                Some(after[id].sha256) == items[i].sha256
  {
    hide SafeFile, Sha256Hex;
  }

  lemma StaysBound(before: map<string, Row>, after: map<string, Row>, gatewayRun: string, nodeRun: string, items: seq<Item>,
                   nodeRunOf: map<string, string>)
    requires Bound(before, nodeRunOf) && gatewayRun in nodeRunOf && nodeRunOf[gatewayRun] == nodeRun
    requires forall j :: 0 <= j < |items| ==> Acceptable(nodeRun, items[j])
    requires forall id :: id in before ==> id in after && after[id] == before[id]
    requires forall id :: id in after && id !in before ==>
               exists j :: 0 <= j < |items| && Acceptable(nodeRun, items[j]) &&
                 id == IdOf(gatewayRun, nodeRun, items[j]) && after[id] == RowOf(gatewayRun, nodeRun, items[j])
    ensures Bound(after, nodeRunOf)
  {
    hide SafeFile, Sha256Hex;
    forall id | id in after
      ensures BoundRow(id, after[id], nodeRunOf)
    {
      if id in before {
        assert BoundRow(id, before[id], nodeRunOf);
      } else {
        var j :| 0 <= j < |items| && Acceptable(nodeRun, items[j]) &&
          id == IdOf(gatewayRun, nodeRun, items[j]) && after[id] == RowOf(gatewayRun, nodeRun, items[j]);
        assert FileRow(id, after[id], nodeRun, FileOf(nodeRun, items[j]));
      }
    }
  }

  // ---- What external identifiers mean -----------------------------------------------------

  /** Run identifiers are UUIDs in text form, which hold no colon. */
  predicate NoColon(s: string) {
    forall i :: 0 <= i < |s| ==> s[i] != ':'
  }

  /** The first colon ends the run's part of an external identifier. */
  lemma ExternalIdInjective(g: string, a: string, h: string, b: string)
    requires NoColon(g) && NoColon(h) && ExternalId(g, a) == ExternalId(h, b)
    ensures g == h && a == b
  {
    var id := ExternalId(g, a);
    assert id[|g|] == ':' && id[|h|] == ':';
    assert forall i :: 0 <= i < |g| ==> id[i] == g[i];
    assert forall i :: 0 <= i < |h| ==> id[i] == h[i];
    assert id[..|g|] == g && id[..|h|] == h;
    assert id[|g| + 1..] == a && id[|h| + 1..] == b;
  }

  /** An external identifier stands for exactly the file of that name of the run's node run. */
  lemma ExternalIdMeans(rows: map<string, Row>, nodeRunOf: map<string, string>, g: string, name: string)
    requires Bound(rows, nodeRunOf) && ExternalId(g, name) in rows
    requires NoColon(g) && forall h :: h in nodeRunOf ==> NoColon(h)
    ensures g in nodeRunOf && SafeFile(name)
    ensures rows[ExternalId(g, name)].gatewayRun == g
    ensures rows[ExternalId(g, name)].nodeArtifact == nodeRunOf[g] + ":" + name
  {
    var id := ExternalId(g, name);
    assert BoundRow(id, rows[id], nodeRunOf);
    var row := rows[id];
    var file :| FileRow(id, row, nodeRunOf[row.gatewayRun], file);
    ExternalIdInjective(g, name, row.gatewayRun, file);
  }

  /** With a node run of its own for every run, no two external identifiers of one node share an artifact. */
  lemma ArtifactsDistinct(rows: map<string, Row>, nodeRunOf: map<string, string>, g: string, a: string, h: string, b: string)
    requires Bound(rows, nodeRunOf) && ExternalId(g, a) in rows && ExternalId(h, b) in rows
    requires NoColon(g) && NoColon(h) && forall x :: x in nodeRunOf ==> NoColon(x) && NoColon(nodeRunOf[x])
    requires forall x, y :: x in nodeRunOf && y in nodeRunOf && nodeRunOf[x] == nodeRunOf[y] ==> x == y
    requires rows[ExternalId(g, a)].nodeArtifact == rows[ExternalId(h, b)].nodeArtifact
    ensures g == h && a == b
  {
    ExternalIdMeans(rows, nodeRunOf, g, a);
    ExternalIdMeans(rows, nodeRunOf, h, b);
    ExternalIdInjective(nodeRunOf[g], a, nodeRunOf[h], b);
  }
}
