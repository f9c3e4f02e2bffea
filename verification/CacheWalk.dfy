/** Listing the response cache: the whole tree is checked before anything is deleted from it. */
module CacheWalk {
  import opened Tables
  import opened CachePrune

  /** A path as the walk finds it: gone, not the user's own or a link, or the user's own. */
  datatype Node = Missing | Foreign | Own(content: Content)

  datatype Content = Folder(children: seq<Node>) | UnreadableFolder | Json(entry: Entry) | OtherFile

  datatype WalkError = Refused

  // ---- What the tree holds ------------------------------------------------------

  /** Everything below is the user's own and every folder can be read. */
  predicate Trusted(nodes: seq<Node>) {
    nodes == [] || (TrustedNode(nodes[0]) && Trusted(nodes[1..]))
  }

  predicate TrustedNode(node: Node) {
    match node
    case Missing => true
    case Foreign => false
    case Own(Folder(children)) => Trusted(children)
    case Own(UnreadableFolder) => false
    case Own(_) => true
  }

  /** Every entry file below, at any depth. */
  function AllEntries(nodes: seq<Node>): multiset<Entry> {
    if nodes == [] then multiset{} else EntriesOf(nodes[0]) + AllEntries(nodes[1..])
  }

  function EntriesOf(node: Node): multiset<Entry> {
    match node
    case Own(Folder(children)) => AllEntries(children)
    case Own(Json(entry)) => multiset{entry}
    case _ => multiset{}
  }

  function Size(nodes: seq<Node>): nat {
    if nodes == [] then 0 else SizeOf(nodes[0]) + Size(nodes[1..])
  }

  function SizeOf(node: Node): nat {
    match node
    case Own(Folder(children)) => 1 + Size(children)
    case _ => 1
  }

  // ---- The walk -----------------------------------------------------------------

  ghost function PendingEntries(pending: seq<Content>): multiset<Entry> {
    if pending == [] then multiset{}
    else PendingEntries(pending[..|pending| - 1]) + EntriesOf(Own(pending[|pending| - 1]))
  }

  ghost predicate PendingTrusted(pending: seq<Content>) {
    pending == []
    || (PendingTrusted(pending[..|pending| - 1]) && TrustedNode(Own(pending[|pending| - 1])))
  }

  ghost function PendingSize(pending: seq<Content>): nat {
    if pending == [] then 0
    else PendingSize(pending[..|pending| - 1]) + SizeOf(Own(pending[|pending| - 1]))
  }

  lemma Pushed(pending: seq<Content>, folder: Content)
    ensures PendingEntries(pending + [folder]) == PendingEntries(pending) + EntriesOf(Own(folder))
    ensures PendingTrusted(pending + [folder]) <==> PendingTrusted(pending) && TrustedNode(Own(folder))
    ensures PendingSize(pending + [folder]) == PendingSize(pending) + SizeOf(Own(folder))
  {
    assert (pending + [folder])[..|pending|] == pending;
  }

  ghost predicate AllFolders(pending: seq<Content>) {
    forall i | 0 <= i < |pending| :: pending[i].Folder? || pending[i].UnreadableFolder?
  }

  lemma FirstOf(nodes: seq<Node>, i: nat)
    requires i < |nodes|
    ensures AllEntries(nodes[i..]) == EntriesOf(nodes[i]) + AllEntries(nodes[i + 1..])
    ensures Trusted(nodes[i..]) <==> TrustedNode(nodes[i]) && Trusted(nodes[i + 1..])
    ensures Size(nodes[i..]) == SizeOf(nodes[i]) + Size(nodes[i + 1..])
    ensures nodes[i].Foreign? ==> !Trusted(nodes[i..])
  {
    assert nodes[i..][1..] == nodes[i + 1..];
  }

  /** List one folder: its folders are pushed, its entry files found. */
  method Scan(children: seq<Node>, pending: seq<Content>, found: seq<Entry>)
    returns (r: Result<(seq<Content>, seq<Entry>), WalkError>)
    requires AllFolders(pending)
    ensures r.Err? ==> !Trusted(children)
    ensures r.Ok? ==>
              var (pending', found') := r.value;
              && AllFolders(pending')
              && multiset(found') + PendingEntries(pending')
                 == multiset(found) + PendingEntries(pending) + AllEntries(children)
              && (PendingTrusted(pending') <==> PendingTrusted(pending) && Trusted(children))
              && PendingSize(pending') <= PendingSize(pending) + Size(children)
  {
    hide PendingEntries, PendingTrusted, PendingSize, AllEntries, Trusted, Size;
    var pending', found' := pending, found;
    assert children[0..] == children;
    for i := 0 to |children|
      invariant AllFolders(pending')
      invariant multiset(found') + PendingEntries(pending') + AllEntries(children[i..])
             == multiset(found) + PendingEntries(pending) + AllEntries(children)
      invariant PendingTrusted(pending') && Trusted(children[i..]) <==> PendingTrusted(pending) && Trusted(children)
      invariant Trusted(children) ==> Trusted(children[i..])
      invariant PendingSize(pending') + Size(children[i..]) <= PendingSize(pending) + Size(children)
    {
      FirstOf(children, i);
      match children[i] {
        case Missing =>
        case Foreign =>
          return Err(Refused);
        case Own(content) =>
          if content.Folder? || content.UnreadableFolder? {
            Pushed(pending', content);
            pending' := pending' + [content];
          } else if content.Json? {
            found' := found' + [content.entry];
          }
      }
    }
    Nothing(children);
    return Ok((pending', found'));
  }

  lemma Nothing(nodes: seq<Node>)
    ensures AllEntries(nodes[|nodes|..]) == multiset{} && Trusted(nodes[|nodes|..]) && Size(nodes[|nodes|..]) == 0
  {
  }

  ghost predicate Walkable(root: Node) {
    root.Missing? || (root.Own? && root.content.Folder? && TrustedNode(root))
  }

  /** The listing holds exactly the entry files of the tree, or the walk is refused: exactly when
      something below is not the user's own or cannot be read. */
  method Entries(root: Node) returns (r: Result<seq<Entry>, WalkError>)
    ensures r.Ok? <==> Walkable(root)
    ensures r.Ok? ==> multiset(r.value) == EntriesOf(root)
  {
    if root.Missing? {
      return Ok([]);
    }
    if !root.Own? || !(root.content.Folder? || root.content.UnreadableFolder?) {
      return Err(Refused);
    }
    var found: seq<Entry> := [];
    var pending := [root.content];
    Pushed([], root.content);
    assert [] + [root.content] == [root.content];
    while pending != []
      invariant AllFolders(pending)
      invariant multiset(found) + PendingEntries(pending) == EntriesOf(root)
      invariant PendingTrusted(pending) <==> TrustedNode(root)
      decreases PendingSize(pending)
    {
      var folder := pending[|pending| - 1];
      pending := pending[..|pending| - 1];
      if !folder.Folder? {
        return Err(Refused);
      }
      var scanned := Scan(folder.children, pending, found);
      if scanned.Err? {
        return Err(Refused);
      }
      pending, found := scanned.value.0, scanned.value.1;
    }
    return Ok(found);
  }

  /** A refused walk deletes nothing; otherwise exactly the listed entries are pruned, up to the
      first one that cannot be removed. */
  method PruneTree(cache: ResponseCache, root: Node, maxAge: Option<nat>, maxBytes: Option<nat>, now: int,
                   stuck: set<string>) returns (r: Result<nat, CacheError>, ghost listing: seq<Entry>)
    modifies cache
    ensures !Walkable(root) ==>
              r.Err? && cache.files == old(cache.files)
    ensures Walkable(root) ==> multiset(listing) == EntriesOf(root)
    ensures r.Ok? ==>
              && IsCut(Sorted(listing, now), r.value, maxAge, maxBytes, now)
              && cache.files == old(cache.files) - Paths(Sorted(listing, now)[..r.value])
    ensures r.Err? && Walkable(root) ==>
              exists k: nat, n: nat ::
                && IsCut(Sorted(listing, now), n, maxAge, maxBytes, now)
                && FirstStuck(Sorted(listing, now), k, n, stuck)
                && cache.files == old(cache.files) - Paths(Sorted(listing, now)[..k])
                && r.error == CacheFailure(Sorted(listing, now)[k].path)
  {
    listing := [];
    var entries := Entries(root);
    if entries.Err? {
      return Err(CacheFailure("")), listing;
    }
    listing := entries.value;
    r := cache.Prune(entries.value, maxAge, maxBytes, now, stuck);
  }
}
