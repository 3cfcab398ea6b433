/** The repository the GitHub client talks to, and the client operations that
    change it: the contents API (`getFileContent`, `createOrUpdateFile`,
    `deleteFile`), `getRepoInfo`, and `batchCommit`, which builds one commit
    from blobs, a tree, a commit and a ref update.

    The repository is a git object store (blobs, trees, commits) with one
    branch head. A tree maps each path to its blob: the blob's id together
    with the content stored under that id, so that the files at the head are
    the head's tree itself. Every request the client sends is appended
    to `log`. Whether the network or the server fails a request is an input:
    `faults` is the scripted outcome of the requests in the order they are
    sent (`Some(e)` fails that request with `e`, `None` or an exhausted script
    lets the server answer normally). */
module GitStore {
  import opened Common
  import opened Documents
  import opened GitHubApi

  /** A file as seen in a tree: its content and its blob id. */
  datatype StoredFile = StoredFile(content: Content, sha: Sha)

  /** A directory snapshot: path -> the blob at that path. */
  type Tree = map<string, StoredFile>

  datatype Commit = Commit(message: string, tree: Sha, parents: seq<Sha>)

  datatype TreeEntry = TreeEntry(path: string, mode: string, kind: string, sha: Sha)

  /** One `{ path, content }` handed to `batchCommit`. */
  datatype FileToCommit = FileToCommit(path: string, content: Content)

  /** The answer to the commit-creation request, which `batchCommit` returns. */
  datatype CommitInfo = CommitInfo(sha: Sha, tree: Sha, parents: seq<Sha>, message: string)

  /** The requests the client sends, with the bodies that matter. */
  datatype Request =
    | GetRepo
    | GetContents(path: string)
    | PutContents(path: string, body: PutBody)
    | DeleteContents(path: string, message: string, sha: Sha)
    | GetHeadRef
    | GetCommit(sha: Sha)
    | PostBlob(blob: BlobBody)
    | PostTree(baseTree: Sha, entries: seq<TreeEntry>)
    | PostCommit(message: string, tree: Sha, parents: seq<Sha>)
    | PatchHeadRef(sha: Sha)

  /** Requests that can change the repository. */
  predicate IsWrite(r: Request) {
    r.PutContents? || r.DeleteContents? || r.PostBlob? || r.PostTree? || r.PostCommit? || r.PatchHeadRef?
  }

  predicate NoWrites(rs: seq<Request>) {
    forall i :: 0 <= i < |rs| ==> !IsWrite(rs[i])
  }

  // ---------------------------------------------------------------------------
  // Scripted faults
  // ---------------------------------------------------------------------------

  /** The scripted outcome of the k-th request sent. */
  function FaultAt(fs: seq<Option<ApiError>>, k: nat): Option<ApiError> {
    if k < |fs| then fs[k] else None
  }

  /** The requests numbered `from` up to `to` all get through. */
  predicate Clear(fs: seq<Option<ApiError>>, from: nat, to: int) {
    forall k :: from <= k < to ==> FaultAt(fs, k).None?
  }

  /** Requests `from` up to `to` were sent and `fault` is how the run ended:
      all of them got through, or all but the last did and the last failed
      with `fault`. */
  predicate Ran(fs: seq<Option<ApiError>>, from: nat, to: nat, fault: Option<ApiError>) {
    from <= to
    && match fault
       case None => Clear(fs, from, to)
       case Some(_) => from < to && Clear(fs, from, to - 1) && FaultAt(fs, to - 1) == fault
  }

  // ---------------------------------------------------------------------------
  // Files at the head, and the contents API's answers
  // ---------------------------------------------------------------------------

  /** The part of a path after its last '/'. */
  function BaseName(path: string): (name: string)
    ensures '/' !in name
    decreases |path|
  {
    match IndexOf(path, '/')
    case None => path
    case Some(i) => BaseName(path[i + 1..])
  }

  /** The contents API's answer for `path` when the scripted outcome is
      `fault`: the failure, the file's base64 content with its blob id, path
      and name, or a 404 for a path that is not a file. */
  function ContentsAnswer(fault: Option<ApiError>, files: map<string, StoredFile>, path: string)
    : Result<ContentsBody, ApiError>
  {
    if fault.Some? then Err(fault.value)
    else if path in files then
      Ok(ContentsBody(Some(EncodeBase64(files[path].content)), files[path].sha, path, BaseName(path)))
    else Err(HttpError(404, "Not Found"))
  }

  /** What a fault-free `getFileContent` reads: nothing for a missing or
      empty file, and otherwise the file's content and blob id. */
  function ReadFile(files: map<string, StoredFile>, path: string): (r: Option<FileInfo>)
    ensures r.Some? <==> path in files && files[path].content != Text("")
    ensures r.Some? ==> r.value == FileInfo(files[path].content, files[path].sha, path)
  {
    if path in files && files[path].content != Text("") then
      Some(FileInfo(files[path].content, files[path].sha, path))
    else None
  }

  /** `getFileContent(path)` against the files at the head: a scripted
      failure goes through the client's error handling, and otherwise the
      file is read. */
  function FetchFile(fault: Option<ApiError>, files: map<string, StoredFile>, path: string)
    : Result<Option<FileInfo>, ApiError>
  {
    if fault.Some? then FileContentResult(Err(fault.value)) else Ok(ReadFile(files, path))
  }

  /** `getFileContent` applied to the contents API's answer is `FetchFile`:
      without a scripted failure it never throws, since a path that is not a
      file answers 404, which it turns into `null`. */
  lemma FetchFileAnswer(fault: Option<ApiError>, files: map<string, StoredFile>, path: string)
    ensures FileContentResult(ContentsAnswer(fault, files, path)) == FetchFile(fault, files, path)
  {
    if fault.None? && path !in files {
      NotFoundIsNull("Not Found");
    }
  }

  // ---------------------------------------------------------------------------
  // The batch commit's requests and effect
  // ---------------------------------------------------------------------------

  /** The tree entries `batchCommit` builds: one per file, in order, each a
      regular-file blob named by the id its blob request was given. */
  function Entries(files: seq<FileToCommit>, first: nat): (es: seq<TreeEntry>)
    ensures |es| == |files|
  {
    seq(|files|, i requires 0 <= i < |files| => TreeEntry(files[i].path, "100644", "blob", Sha(first + i)))
  }

  function BlobRequests(files: seq<FileToCommit>): (rs: seq<Request>)
    ensures |rs| == |files|
  {
    seq(|files|, i requires 0 <= i < |files| => PostBlob(BlobRequestBody(files[i].content)))
  }

  /** The tree the server builds from `es` over the blobs it holds: each
      entry's path gets the blob the entry names, a later entry for the same
      path winning; an entry naming no blob adds nothing. */
  function EntryFiles(es: seq<TreeEntry>, blobs: map<Sha, Content>): Tree
    decreases |es|
  {
    if es == [] then map[]
    else
      var last := es[|es| - 1];
      var init := EntryFiles(es[..|es| - 1], blobs);
      if last.sha in blobs then init[last.path := StoredFile(blobs[last.sha], last.sha)] else init
  }

  /** The six steps of `batchCommit` in order: read the head ref, read the
      head commit, one blob per file, the tree on top of the head's tree, the
      commit whose only parent is the head, and the ref update to that commit.
      `first` is the id the first new object receives. */
  function BatchRequests(files: seq<FileToCommit>, message: string, head: Sha, baseTree: Sha, first: nat)
    : (rs: seq<Request>)
    ensures |rs| == |files| + 5
  {
    [GetHeadRef, GetCommit(head)] + WriteRequests(files, message, head, baseTree, first)
  }

  /** The steps of `batchCommit` after its two reads: the blobs, the tree,
      the commit and the ref update. */
  function WriteRequests(files: seq<FileToCommit>, message: string, head: Sha, baseTree: Sha, first: nat)
    : (rs: seq<Request>)
    ensures |rs| == |files| + 3
  {
    BlobRequests(files) + FinalSteps(baseTree, Entries(files, first), message, head, first + |files|)
  }

  /** The last three steps of `batchCommit`: the tree of `entries` on top of
      `baseTree`, the commit of that tree with parent `head`, and the ref
      update to that commit; `next` is the id the tree receives. */
  function FinalSteps(baseTree: Sha, entries: seq<TreeEntry>, message: string, head: Sha, next: nat)
    : (rs: seq<Request>)
    ensures |rs| == 3
  {
    [PostTree(baseTree, entries), PostCommit(message, Sha(next), [head]), PatchHeadRef(Sha(next + 1))]
  }

  /** The files at the head after committing `fs` on top of `files0`: each
      committed path holds the content of its last occurrence in `fs`. */
  function Committed(files0: map<string, StoredFile>, fs: seq<FileToCommit>, first: nat)
    : map<string, StoredFile>
    decreases |fs|
  {
    if fs == [] then files0
    else Committed(files0, fs[..|fs| - 1], first)
           [fs[|fs| - 1].path := StoredFile(fs[|fs| - 1].content, Sha(first + |fs| - 1))]
  }

  /** Committing leaves every path that is not committed as it was. */
  lemma {:induction false} CommittedUntouched(files0: map<string, StoredFile>, fs: seq<FileToCommit>, first: nat, p: string)
    requires forall i :: 0 <= i < |fs| ==> fs[i].path != p
    ensures p in Committed(files0, fs, first) <==> p in files0
    ensures p in files0 ==> Committed(files0, fs, first)[p] == files0[p]
    decreases |fs|
  {
    if fs != [] {
      var init := fs[..|fs| - 1];
      assert forall i :: 0 <= i < |init| ==> init[i] == fs[i];
      CommittedUntouched(files0, init, first, p);
    }
  }

  /** Every blob a tree names exists and holds the content the tree shows. */
  ghost predicate InBlobs(t: Tree, blobs: map<Sha, Content>) {
    forall p :: p in t ==> t[p].sha in blobs && blobs[t[p].sha] == t[p].content
  }

  // ---------------------------------------------------------------------------
  // The repository's objects
  // ---------------------------------------------------------------------------

  /** The git objects of the repository and its one branch, `main`. `nextId`
      is the id the next created object receives. */
  datatype Repo = Repo(
    blobs: map<Sha, Content>,
    trees: map<Sha, Tree>,
    commits: map<Sha, Commit>,
    head: Sha,
    nextId: nat)

  /** Object ids are handed out in order, the head names a commit whose tree
      exists, and the head's tree names existing blobs. */
  ghost predicate RepoValid(g: Repo) {
    && (forall s :: s in g.blobs ==> s.id < g.nextId)
    && (forall s :: s in g.trees ==> s.id < g.nextId)
    && (forall s :: s in g.commits ==> s.id < g.nextId)
    && g.head in g.commits && g.commits[g.head].tree in g.trees
    && InBlobs(g.trees[g.commits[g.head].tree], g.blobs)
  }

  /** In a well-formed repository the files at the head all have their blobs. */
  lemma RepoValidBlobs(g: Repo)
    requires RepoValid(g)
    ensures InBlobs(HeadTree(g), g.blobs)
  {
  }

  /** The tree at the head. */
  function HeadTree(g: Repo): Tree {
    if g.head in g.commits && g.commits[g.head].tree in g.trees then g.trees[g.commits[g.head].tree] else map[]
  }

  /** The files at the head, with their blob ids. */
  function RepoFiles(g: Repo): map<string, StoredFile> {
    HeadTree(g)
  }

  /** A repository whose `main` has one commit with no files. */
  function EmptyRepo(): (g: Repo)
    ensures RepoValid(g) && RepoFiles(g) == map[]
  {
    Repo(map[], map[Sha(0) := map[]], map[Sha(1) := Commit("Initial commit", Sha(0), [])], Sha(1), 2)
  }

  /** A new blob under the next id. */
  function AddBlob(g: Repo, c: Content): Repo {
    g.(blobs := g.blobs[Sha(g.nextId) := c], nextId := g.nextId + 1)
  }

  /** A new tree under the next id. */
  function AddTree(g: Repo, t: Tree): Repo {
    g.(trees := g.trees[Sha(g.nextId) := t], nextId := g.nextId + 1)
  }

  /** A new commit under the next id. */
  function AddCommit(g: Repo, c: Commit): Repo {
    g.(commits := g.commits[Sha(g.nextId) := c], nextId := g.nextId + 1)
  }

  /** The head moved to commit `c`. */
  function MoveHead(g: Repo, c: Sha): Repo {
    g.(head := c)
  }

  /** A commit of tree `t` on top of the head, and the head moved to it. */
  function CommitTree(g: Repo, t: Tree, message: string): Repo {
    var g1 := AddTree(g, t);
    var g2 := AddCommit(g1, Commit(message, Sha(g.nextId), [g.head]));
    MoveHead(g2, Sha(g.nextId + 1))
  }

  /** A new blob takes a fresh id and leaves the files at the head alone. */
  lemma AddBlobValid(g: Repo, c: Content)
    requires RepoValid(g)
    ensures RepoValid(AddBlob(g, c)) && Sha(g.nextId) !in g.blobs
    ensures RepoFiles(AddBlob(g, c)) == RepoFiles(g)
  {
    var h := AddBlob(g, c);
    assert HeadTree(h) == HeadTree(g);
  }

  /** A new tree or commit leaves the tree at the head alone. */
  lemma AddObjectValid(g: Repo, t: Tree, c: Commit)
    requires RepoValid(g)
    ensures RepoValid(AddTree(g, t)) && HeadTree(AddTree(g, t)) == HeadTree(g)
    ensures RepoValid(AddCommit(g, c)) && HeadTree(AddCommit(g, c)) == HeadTree(g)
  {
  }

  /** Committing a tree whose blobs exist makes it the tree at the head, with
      a new commit whose only parent is the old head. */
  lemma CommitTreeValid(g: Repo, t: Tree, message: string)
    requires RepoValid(g) && InBlobs(t, g.blobs)
    ensures var h := CommitTree(g, t, message);
      && RepoValid(h) && HeadTree(h) == t && h.blobs == g.blobs && h.head == Sha(g.nextId + 1)
      && h.commits[h.head] == Commit(message, Sha(g.nextId), [g.head])
  {
    var g1 := AddTree(g, t);
    AddObjectValid(g, t, Commit("", Sha(0), []));
    AddObjectValid(g1, map[], Commit(message, Sha(g.nextId), [g.head]));
  }

  // ---------------------------------------------------------------------------
  // The batch commit as a run of requests
  // ---------------------------------------------------------------------------

  /** How a run of requests ended: the repository after it, the number of the
      next request to be sent, and the failure it stopped at, if any. */
  datatype Run = Run(repo: Repo, next: nat, fault: Option<ApiError>)

  /** The blob requests of `batchCommit`, numbered from `n`: each file's
      content becomes a new blob, in order, until a request fails. */
  function BlobsRun(g: Repo, fs: seq<Option<ApiError>>, n: nat, files: seq<FileToCommit>): (r: Run)
    ensures n <= r.next <= n + |files|
    decreases |files|
  {
    if files == [] then Run(g, n, None)
    else if FaultAt(fs, n).Some? then Run(g, n + 1, FaultAt(fs, n))
    else BlobsRun(AddBlob(g, files[0].content), fs, n + 1, files[1..])
  }

  /** The last three requests of `batchCommit`, numbered from `n`: the tree of
      `entries` over the head's tree, the commit of that tree on top of the
      head, and the move of the head to it. */
  function FinalRun(g: Repo, fs: seq<Option<ApiError>>, n: nat, entries: seq<TreeEntry>, message: string)
    : (r: Run)
    ensures n < r.next <= n + 3
  {
    var g1 := AddTree(g, HeadTree(g) + EntryFiles(entries, g.blobs));
    var g2 := AddCommit(g1, Commit(message, Sha(g.nextId), [g.head]));
    if FaultAt(fs, n).Some? then Run(g, n + 1, FaultAt(fs, n))
    else if FaultAt(fs, n + 1).Some? then Run(g1, n + 2, FaultAt(fs, n + 1))
    else if FaultAt(fs, n + 2).Some? then Run(g2, n + 3, FaultAt(fs, n + 2))
    else Run(MoveHead(g2, Sha(g.nextId + 1)), n + 3, None)
  }

  /** `batchCommit(files, message)` with its requests numbered from `n`: the
      two reads, the blobs, then the final steps, stopping at the first
      request that fails. */
  function BatchRun(g: Repo, fs: seq<Option<ApiError>>, n: nat, files: seq<FileToCommit>, message: string)
    : (r: Run)
    ensures n < r.next <= n + |files| + 5
  {
    if FaultAt(fs, n).Some? then Run(g, n + 1, FaultAt(fs, n))
    else if FaultAt(fs, n + 1).Some? then Run(g, n + 2, FaultAt(fs, n + 1))
    else WriteRun(g, fs, n + 2, files, message)
  }

  /** A batch commit stops at a failed read, and otherwise goes on to its
      writes. */
  lemma BatchRunReads(g: Repo, fs: seq<Option<ApiError>>, n: nat, files: seq<FileToCommit>, message: string)
    ensures FaultAt(fs, n).Some? ==> BatchRun(g, fs, n, files, message) == Run(g, n + 1, FaultAt(fs, n))
    ensures FaultAt(fs, n).None? && FaultAt(fs, n + 1).Some? ==>
      BatchRun(g, fs, n, files, message) == Run(g, n + 2, FaultAt(fs, n + 1))
    ensures FaultAt(fs, n).None? && FaultAt(fs, n + 1).None? ==>
      BatchRun(g, fs, n, files, message) == WriteRun(g, fs, n + 2, files, message)
  {
  }

  /** The requests of `batchCommit` after its two reads, numbered from `n`:
      the blobs, then the final steps, stopping at the first that fails. */
  function WriteRun(g: Repo, fs: seq<Option<ApiError>>, n: nat, files: seq<FileToCommit>, message: string)
    : (r: Run)
    ensures n <= r.next <= n + |files| + 3
  {
    var b := BlobsRun(g, fs, n, files);
    if b.fault.Some? then b else FinalRun(b.repo, fs, b.next, Entries(files, g.nextId), message)
  }

  /** One more blob request, for the k-th file. */
  lemma BlobsRunStep(g: Repo, fs: seq<Option<ApiError>>, n: nat, files: seq<FileToCommit>, k: nat)
    requires k < |files|
    ensures BlobsRun(g, fs, n, files[k..])
         == if FaultAt(fs, n).Some? then Run(g, n + 1, FaultAt(fs, n))
            else BlobsRun(AddBlob(g, files[k].content), fs, n + 1, files[k + 1..])
  {
    assert files[k..][1..] == files[k + 1..];
  }

  /** Blob requests leave the trees, the commits and the head as they were. */
  lemma {:induction false} BlobsRunKeeps(g: Repo, fs: seq<Option<ApiError>>, n: nat, files: seq<FileToCommit>)
    ensures var h := BlobsRun(g, fs, n, files).repo;
      h.trees == g.trees && h.commits == g.commits && h.head == g.head
    decreases |files|
  {
    if files != [] && FaultAt(fs, n).None? {
      BlobsRunKeeps(AddBlob(g, files[0].content), fs, n + 1, files[1..]);
    }
  }

  /** Blob requests only add blobs, under fresh ids: the trees, the commits
      and the head stay as they were, and the repository stays well formed. */
  lemma {:induction false} BlobsRunShape(g: Repo, fs: seq<Option<ApiError>>, n: nat, files: seq<FileToCommit>)
    requires RepoValid(g)
    ensures var h := BlobsRun(g, fs, n, files).repo;
      && RepoValid(h) && h.trees == g.trees && h.commits == g.commits && h.head == g.head
      && g.nextId <= h.nextId <= g.nextId + |files|
      && (forall s :: s in g.blobs ==> s in h.blobs && h.blobs[s] == g.blobs[s])
    decreases |files|
  {
    if files != [] && FaultAt(fs, n).None? {
      BlobsRunShape(AddBlob(g, files[0].content), fs, n + 1, files[1..]);
    }
  }

  /** The blob requests end as the script says, and they all get through
      exactly when none of them is scripted to fail; then every file got its
      blob. */
  lemma {:induction false} BlobsRunEnds(g: Repo, fs: seq<Option<ApiError>>, n: nat, files: seq<FileToCommit>)
    ensures var r := BlobsRun(g, fs, n, files);
      && Ran(fs, n, r.next, r.fault)
      && (r.fault.None? <==> Clear(fs, n, n + |files|))
      && (r.fault.None? ==> r.next == n + |files| && r.repo.nextId == g.nextId + |files|)
    decreases |files|
  {
    if files != [] && FaultAt(fs, n).None? {
      var g1 := AddBlob(g, files[0].content);
      BlobsRunEnds(g1, fs, n + 1, files[1..]);
      assert Clear(fs, n, n + |files|) <==> Clear(fs, n + 1, n + |files|);
    }
  }

  /** Blob requests leave the files at the head as they were. */
  lemma BlobsRunFiles(g: Repo, fs: seq<Option<ApiError>>, n: nat, files: seq<FileToCommit>)
    requires RepoValid(g)
    ensures RepoFiles(BlobsRun(g, fs, n, files).repo) == RepoFiles(g)
  {
    BlobsRunShape(g, fs, n, files);
    var h := BlobsRun(g, fs, n, files).repo;
    assert HeadTree(h) == HeadTree(g);
  }

  /** After blob requests that all got through, the content of the k-th
      file is the blob with the k-th new id. */
  lemma {:induction false} BlobsRunStoresAt(g: Repo, fs: seq<Option<ApiError>>, n: nat, files: seq<FileToCommit>, k: nat)
    requires RepoValid(g) && BlobsRun(g, fs, n, files).fault.None? && k < |files|
    ensures var b := BlobsRun(g, fs, n, files).repo.blobs;
      Sha(g.nextId + k) in b && b[Sha(g.nextId + k)] == files[k].content
    decreases |files|
  {
    var g1 := AddBlob(g, files[0].content);
    assert BlobsRun(g, fs, n, files) == BlobsRun(g1, fs, n + 1, files[1..]);
    if k == 0 {
      BlobsRunShape(g1, fs, n + 1, files[1..]);
    } else {
      assert files[1..][k - 1] == files[k] && g1.nextId + (k - 1) == g.nextId + k;
      BlobsRunStoresAt(g1, fs, n + 1, files[1..], k - 1);
    }
  }

  /** After blob requests that all got through, every tree entry names the
      blob holding its file's content. */
  lemma BlobsRunStores(g: Repo, fs: seq<Option<ApiError>>, n: nat, files: seq<FileToCommit>)
    requires RepoValid(g) && BlobsRun(g, fs, n, files).fault.None?
    ensures var b := BlobsRun(g, fs, n, files).repo.blobs;
      forall k :: 0 <= k < |files| ==>
        Entries(files, g.nextId)[k].sha in b && b[Entries(files, g.nextId)[k].sha] == files[k].content
  {
    forall k | 0 <= k < |files|
      ensures var b := BlobsRun(g, fs, n, files).repo.blobs;
        Entries(files, g.nextId)[k].sha in b && b[Entries(files, g.nextId)[k].sha] == files[k].content
    {
      BlobsRunStoresAt(g, fs, n, files, k);
    }
  }

  /** After blob requests that all got through, the head and its files are
      as they were, and the tree of the new entries over the head's tree names
      existing blobs only. */
  lemma BlobsDone(g: Repo, fs: seq<Option<ApiError>>, n: nat, files: seq<FileToCommit>)
    requires RepoValid(g) && BlobsRun(g, fs, n, files).fault.None?
    ensures var b := BlobsRun(g, fs, n, files).repo;
      && RepoValid(b) && b.head == g.head && HeadTree(b) == HeadTree(g)
      && b.nextId == g.nextId + |files|
      && InBlobs(HeadTree(g) + EntryFiles(Entries(files, g.nextId), b.blobs), b.blobs)
  {
    BlobsRunShape(g, fs, n, files);
    BlobsRunEnds(g, fs, n, files);
    var b := BlobsRun(g, fs, n, files).repo;
    EntryFilesInBlobs(Entries(files, g.nextId), b.blobs);
    RepoValidBlobs(b);
  }

  /** The final steps end as the script says, and get through exactly when
      none of the three is scripted to fail. */
  lemma FinalRunEnds(g: Repo, fs: seq<Option<ApiError>>, n: nat, es: seq<TreeEntry>, message: string)
    ensures var r := FinalRun(g, fs, n, es, message);
      && Ran(fs, n, r.next, r.fault)
      && (r.fault.None? <==> Clear(fs, n, n + 3))
      && (r.fault.None? ==> r.next == n + 3)
  {
    var r := FinalRun(g, fs, n, es, message);
    if r.fault.None? {
      assert Clear(fs, n, n + 3);
    } else {
      assert !Clear(fs, n, n + 3);
    }
  }

  /** What the final steps leave behind, by how far they got: nothing when
      the tree request fails, the tree when the commit request fails, the tree
      and the commit when the ref update fails, and otherwise the tree
      committed on top of the head. */
  lemma FinalRunStages(g: Repo, fs: seq<Option<ApiError>>, n: nat, es: seq<TreeEntry>, message: string)
    ensures var t := HeadTree(g) + EntryFiles(es, g.blobs);
      var g1 := AddTree(g, t);
      FinalRun(g, fs, n, es, message).repo ==
        if FaultAt(fs, n).Some? then g
        else if FaultAt(fs, n + 1).Some? then g1
        else if FaultAt(fs, n + 2).Some? then AddCommit(g1, Commit(message, Sha(g.nextId), [g.head]))
        else CommitTree(g, t, message)
    ensures FinalRun(g, fs, n, es, message).fault.None? <==>
      FaultAt(fs, n).None? && FaultAt(fs, n + 1).None? && FaultAt(fs, n + 2).None?
  {
  }

  /** The final steps keep the repository well formed; when they get through,
      the tree is committed on top of the head, and when they fail, the head
      and its files stay. */
  lemma FinalRunRepo(g: Repo, fs: seq<Option<ApiError>>, n: nat, es: seq<TreeEntry>, message: string)
    requires RepoValid(g) && InBlobs(HeadTree(g) + EntryFiles(es, g.blobs), g.blobs)
    ensures var r := FinalRun(g, fs, n, es, message);
      && RepoValid(r.repo)
      && (r.fault.None? ==> r.repo == CommitTree(g, HeadTree(g) + EntryFiles(es, g.blobs), message))
      && (r.fault.Some? ==> r.repo.head == g.head && RepoFiles(r.repo) == RepoFiles(g))
  {
    FinalRunStages(g, fs, n, es, message);
    var t := HeadTree(g) + EntryFiles(es, g.blobs);
    var g1 := AddTree(g, t);
    var g2 := AddCommit(g1, Commit(message, Sha(g.nextId), [g.head]));
    if FaultAt(fs, n).None? {
      AddObjectValid(g, t, Commit("", Sha(0), []));
      if FaultAt(fs, n + 1).Some? {
        assert HeadTree(g1) == HeadTree(g) && g1.blobs == g.blobs;
      } else if FaultAt(fs, n + 2).Some? {
        AddObjectValid(g1, map[], Commit(message, Sha(g.nextId), [g.head]));
        assert HeadTree(g2) == HeadTree(g) && g2.blobs == g.blobs;
      } else {
        CommitTreeValid(g, t, message);
      }
    }
  }

  /** Requests `a` up to `c` get through exactly when those up to `b` and
      those from `b` on do. */
  lemma ClearSplit(fs: seq<Option<ApiError>>, a: nat, b: nat, c: nat)
    requires a <= b <= c
    ensures Clear(fs, a, c) <==> Clear(fs, a, b) && Clear(fs, b, c)
  {
  }

  /** Two runs of requests back to back, the first of which got through. */
  lemma RanJoin(fs: seq<Option<ApiError>>, a: nat, b: nat, c: nat, fault: Option<ApiError>)
    requires Ran(fs, a, b, None) && Ran(fs, b, c, fault)
    ensures Ran(fs, a, c, fault)
  {
  }

  /** A batch commit ends as the script says, and gets through exactly when
      none of its `|files| + 5` requests is scripted to fail. */
  lemma BatchRunEnds(g: Repo, fs: seq<Option<ApiError>>, n: nat, files: seq<FileToCommit>, message: string)
    ensures var r := BatchRun(g, fs, n, files, message);
      && Ran(fs, n, r.next, r.fault)
      && (r.fault.None? <==> Clear(fs, n, n + |files| + 5))
      && (r.fault.None? ==> r.next == n + |files| + 5)
  {
    var m := n + 2 + |files|;
    ClearSplit(fs, n, n + 2, n + |files| + 5);
    ClearSplit(fs, n + 2, m, m + 3);
    if FaultAt(fs, n).None? && FaultAt(fs, n + 1).None? {
      assert Clear(fs, n, n + 2);
      BlobsRunEnds(g, fs, n + 2, files);
      var b := BlobsRun(g, fs, n + 2, files);
      RanJoin(fs, n, n + 2, b.next, b.fault);
      if b.fault.None? {
        var es := Entries(files, g.nextId);
        FinalRunEnds(b.repo, fs, m, es, message);
        var r := FinalRun(b.repo, fs, m, es, message);
        RanJoin(fs, n, m, r.next, r.fault);
      }
    } else {
      assert !Clear(fs, n, n + 2);
    }
  }

  /** The writes of a batch commit keep the repository well formed. */
  lemma WriteRunValid(g: Repo, fs: seq<Option<ApiError>>, n: nat, files: seq<FileToCommit>, message: string)
    requires RepoValid(g)
    ensures RepoValid(WriteRun(g, fs, n, files, message).repo)
  {
    WriteRunRepo(g, fs, n, files, message);
  }

  /** The writes of a batch commit keep the repository well formed; when
      they fail, the head and the files at the head are as they were. */
  lemma WriteRunRepo(g: Repo, fs: seq<Option<ApiError>>, n: nat, files: seq<FileToCommit>, message: string)
    requires RepoValid(g)
    ensures var r := WriteRun(g, fs, n, files, message);
      && RepoValid(r.repo)
      && (r.fault.Some? ==> r.repo.head == g.head && RepoFiles(r.repo) == RepoFiles(g))
  {
    var b := BlobsRun(g, fs, n, files);
    if b.fault.None? {
      BlobsDone(g, fs, n, files);
      FinalRunRepo(b.repo, fs, b.next, Entries(files, g.nextId), message);
      assert RepoFiles(b.repo) == RepoFiles(g);
    } else {
      BlobsRunShape(g, fs, n, files);
      BlobsRunFiles(g, fs, n, files);
    }
  }

  /** A batch commit keeps the repository well formed; when it fails, the
      head and the files at the head are as they were. */
  lemma BatchRunRepo(g: Repo, fs: seq<Option<ApiError>>, n: nat, files: seq<FileToCommit>, message: string)
    requires RepoValid(g)
    ensures var r := BatchRun(g, fs, n, files, message);
      && RepoValid(r.repo)
      && (r.fault.Some? ==> r.repo.head == g.head && RepoFiles(r.repo) == RepoFiles(g))
  {
    if FaultAt(fs, n).None? && FaultAt(fs, n + 1).None? {
      WriteRunRepo(g, fs, n + 2, files, message);
    }
  }

  /** A batch commit that gets through commits, on top of the head, the tree
      of the new entries over the head's tree. */
  lemma {:induction false} BatchRunTree(g: Repo, fs: seq<Option<ApiError>>, n: nat, files: seq<FileToCommit>, message: string)
    requires RepoValid(g) && BatchRun(g, fs, n, files, message).fault.None?
    ensures var b := BlobsRun(g, fs, n + 2, files).repo;
      BatchRun(g, fs, n, files, message).repo == CommitTree(b, HeadTree(g) + EntryFiles(Entries(files, g.nextId), b.blobs), message)
  {
    var b := BlobsRun(g, fs, n + 2, files);
    BlobsDone(g, fs, n + 2, files);
    BatchRunStages(g, fs, n, files, message);
    FinalRunRepo(b.repo, fs, b.next, Entries(files, g.nextId), message);
  }

  /** A batch commit that gets through leaves the head at a new commit of
      the new tree whose only parent is the old head. */
  lemma {:induction false} BatchRunHead(g: Repo, fs: seq<Option<ApiError>>, n: nat, files: seq<FileToCommit>, message: string)
    requires RepoValid(g) && BatchRun(g, fs, n, files, message).fault.None?
    ensures var h := BatchRun(g, fs, n, files, message).repo;
      && h.head == Sha(g.nextId + |files| + 1)
      && h.head in h.commits
      && h.commits[h.head] == Commit(message, Sha(g.nextId + |files|), [g.head])
  {
    var b := BlobsRun(g, fs, n + 2, files).repo;
    BlobsDone(g, fs, n + 2, files);
    BatchRunTree(g, fs, n, files, message);
    CommitTreeValid(b, HeadTree(g) + EntryFiles(Entries(files, g.nextId), b.blobs), message);
  }

  /** A batch commit that gets through leaves at the head the old files with
      the committed files written over them, the last occurrence of a path
      winning. */
  lemma {:induction false} BatchRunFiles(g: Repo, fs: seq<Option<ApiError>>, n: nat, files: seq<FileToCommit>, message: string)
    requires RepoValid(g) && BatchRun(g, fs, n, files, message).fault.None?
    ensures RepoFiles(BatchRun(g, fs, n, files, message).repo) == Committed(RepoFiles(g), files, g.nextId)
  {
    var b := BlobsRun(g, fs, n + 2, files).repo;
    var es := Entries(files, g.nextId);
    var t := HeadTree(g) + EntryFiles(es, b.blobs);
    BlobsDone(g, fs, n + 2, files);
    BatchRunTree(g, fs, n, files, message);
    CommitTreeValid(b, t, message);
    BlobsRunStores(g, fs, n + 2, files);
    EntryFilesCommittedAll(HeadTree(g), b.blobs, files, es, g.nextId);
  }

  /** A batch commit runs its stages in order and stops at the first that
      fails. */
  lemma BatchRunStages(g: Repo, fs: seq<Option<ApiError>>, n: nat, files: seq<FileToCommit>, message: string)
    ensures var b := BlobsRun(g, fs, n + 2, files);
      BatchRun(g, fs, n, files, message).fault.None? <==>
        FaultAt(fs, n).None? && FaultAt(fs, n + 1).None? && b.fault.None?
        && FinalRun(b.repo, fs, b.next, Entries(files, g.nextId), message).fault.None?
    ensures var b := BlobsRun(g, fs, n + 2, files);
      BatchRun(g, fs, n, files, message).fault.None? ==>
        BatchRun(g, fs, n, files, message) == FinalRun(b.repo, fs, b.next, Entries(files, g.nextId), message)
  {
  }

  // ---------------------------------------------------------------------------
  // The client against the repository
  // ---------------------------------------------------------------------------

  class Store {
    var repo: Repo
    var log: seq<Request>
    const faults: seq<Option<ApiError>>

    ghost predicate Valid()
      reads this`repo
    {
      RepoValid(repo)
    }

    function Files(): map<string, StoredFile>
      reads this`repo
    {
      RepoFiles(repo)
    }

    function NextFault(): Option<ApiError>
      reads this`log
    {
      FaultAt(faults, |log|)
    }

    /** The repository's optimistic-concurrency check on a contents write: the
        sha sent must be the file's current blob id, or absent for a new file. */
    function CurrentSha(path: string): Option<Sha>
      reads this`repo
    {
      if path in Files() then Some(Files()[path].sha) else None
    }

    /** A client for a repository with one empty commit on `main`. */
    constructor Init(script: seq<Option<ApiError>>)
      ensures Valid()
      ensures Files() == map[] && log == [] && faults == script
    {
      repo := EmptyRepo();
      log := [];
      faults := script;
    }

    /** Sends one request: records it and takes its scripted outcome. */
    method Send(r: Request) returns (fault: Option<ApiError>)
      modifies this`log
      ensures log == old(log) + [r]
      ensures fault == old(NextFault())
    {
      fault := NextFault();
      log := log + [r];
    }

    /** `getRepoInfo()`: one read that fails only as scripted. */
    method GetRepoInfo() returns (r: Option<ApiError>)
      modifies this`log
      ensures log == old(log) + [GetRepo]
      ensures r == old(NextFault())
    {
      r := Send(GetRepo);
    }

    /** `getFileContent(path)`. */
    method GetFileContent(path: string) returns (r: Result<Option<FileInfo>, ApiError>)
      modifies this`log
      ensures log == old(log) + [GetContents(path)]
      ensures r == FetchFile(old(NextFault()), old(Files()), path)
    {
      var fault := Send(GetContents(path));
      r := FileContentResult(ContentsAnswer(fault, Files(), path));
      FetchFileAnswer(fault, Files(), path);
    }

    /** `createOrUpdateFile(path, content, message, sha)`: a PUT with the
        base64 content, and the sha only when one is given. The repository
        applies it when the sha matches and then the file holds the content
        as a new blob. The result is the new head commit. */
    method CreateOrUpdateFile(path: string, content: Content, message: string, sha: Option<Sha>)
      returns (r: Result<Sha, ApiError>)
      requires Valid()
      modifies this`repo, this`log
      ensures Valid()
      ensures log == old(log) + [PutContents(path, PutRequestBody(content, message, sha))]
      ensures old(NextFault()).Some? ==> r == Err(old(NextFault()).value)
      ensures old(NextFault()).None? && sha != old(CurrentSha(path)) ==> r == Err(HttpError(409, "Conflict"))
      ensures r.Ok? <==> old(NextFault()).None? && sha == old(CurrentSha(path))
      ensures r.Ok? ==> Files() == old(Files())[path := StoredFile(content, Sha(old(repo.nextId)))]
      ensures r.Err? ==> repo == old(repo)
    {
      var fault := Send(PutContents(path, PutRequestBody(content, message, sha)));
      if fault.Some? {
        return Err(fault.value);
      }
      if sha != CurrentSha(path) {
        return Err(HttpError(409, "Conflict"));
      }
      var blob := Sha(repo.nextId);
      var g1 := AddBlob(repo, content);
      var t := HeadTree(repo)[path := StoredFile(content, blob)];
      AddBlobValid(repo, content);
      RepoValidBlobs(g1);
      CommitTreeValid(g1, t, message);
      repo := CommitTree(g1, t, message);
      r := Ok(repo.head);
    }

    /** `deleteFile(path, sha, message)`: applied when `sha` is the file's
        current blob id; the file is then gone from the head. */
    method DeleteFile(path: string, sha: Sha, message: string) returns (r: Result<Sha, ApiError>)
      requires Valid()
      modifies this`repo, this`log
      ensures Valid()
      ensures log == old(log) + [DeleteContents(path, message, sha)]
      ensures old(NextFault()).Some? ==> r == Err(old(NextFault()).value)
      ensures old(NextFault()).None? && path !in old(Files()) ==> r == Err(HttpError(404, "Not Found"))
      ensures r.Ok? <==> old(NextFault()).None? && old(CurrentSha(path)) == Some(sha)
      ensures r.Ok? ==> Files() == old(Files()) - {path} && repo.nextId == old(repo.nextId) + 2
      ensures r.Err? ==> repo == old(repo)
    {
      var fault := Send(DeleteContents(path, message, sha));
      if fault.Some? {
        return Err(fault.value);
      }
      if path !in Files() {
        return Err(HttpError(404, "Not Found"));
      }
      if Files()[path].sha != sha {
        return Err(HttpError(409, "Conflict"));
      }
      var t := HeadTree(repo) - {path};
      RepoValidBlobs(repo);
      CommitTreeValid(repo, t, message);
      repo := CommitTree(repo, t, message);
      r := Ok(repo.head);
    }

    /** The first two steps of `batchCommit`: read the head ref, then the
        commit it names, whose tree the new tree builds on. */
    method ReadHead() returns (fault: Option<ApiError>, headSha: Sha, baseTree: Sha)
      requires Valid()
      modifies this`log
      ensures headSha == repo.head && baseTree == repo.commits[repo.head].tree
      ensures |old(log)| < |log| <= |old(log)| + 2
      ensures log == old(log) + [GetHeadRef, GetCommit(headSha)][..|log| - |old(log)|]
      ensures old(NextFault()).Some? ==> |log| == |old(log)| + 1 && fault == old(NextFault())
      ensures old(NextFault()).None? ==>
        |log| == |old(log)| + 2 && fault == FaultAt(faults, |old(log)| + 1)
    {
      headSha, baseTree := repo.head, repo.commits[repo.head].tree;
      fault := Send(GetHeadRef);
      if fault.None? {
        fault := Send(GetCommit(headSha));
      }
    }

    /** One blob request of `batchCommit`; the repository keeps the content
        under the next id. */
    method BlobStep(c: Content) returns (fault: Option<ApiError>, s: Sha)
      modifies this`repo, this`log
      ensures log == old(log) + [PostBlob(BlobRequestBody(c))] && fault == old(NextFault())
      ensures s == Sha(old(repo.nextId))
      ensures repo == if fault.Some? then old(repo) else AddBlob(old(repo), c)
    {
      fault := Send(PostBlob(BlobRequestBody(c)));
      s := Sha(repo.nextId);
      if fault.None? {
        repo := AddBlob(repo, BlobContent(BlobRequestBody(c)));
      }
    }

    /** The blob step of `batchCommit`: one blob request per file, in order,
        stopping at the first that fails; the content goes as text, or as
        base64 when it is binary. */
    method PostBlobs(files: seq<FileToCommit>) returns (fault: Option<ApiError>, entries: seq<TreeEntry>)
      modifies this`repo, this`log
      ensures Run(repo, |log|, fault) == BlobsRun(old(repo), faults, |old(log)|, files)
      ensures |old(log)| <= |log| <= |old(log)| + |files|
      ensures log == old(log) + BlobRequests(files)[..|log| - |old(log)|]
      ensures fault.None? ==> entries == Entries(files, old(repo.nextId))
    {
      ghost var g0, log0 := repo, log;
      fault, entries := None, [];
      var sent := 0;
      while sent < |files|
        invariant 0 <= sent <= |files| && |log| == |log0| + sent
        invariant BlobsRun(repo, faults, |log|, files[sent..]) == BlobsRun(g0, faults, |log0|, files)
        invariant log == log0 + BlobRequests(files)[..sent]
        invariant repo.nextId == g0.nextId + sent
        invariant entries == Entries(files, g0.nextId)[..sent]
        invariant fault.None?
      {
        PrefixSnoc(BlobRequests(files), sent);
        PrefixSnoc(Entries(files, g0.nextId), sent);
        BlobsRunStep(repo, faults, |log|, files, sent);
        var blobSha;
        fault, blobSha := BlobStep(files[sent].content);
        if fault.Some? {
          return;
        }
        entries := entries + [TreeEntry(files[sent].path, "100644", "blob", blobSha)];
        sent := sent + 1;
      }
      assert files[sent..] == [];
      assert entries == Entries(files, g0.nextId)[..|files|];
    }

    /** The last three steps of `batchCommit`: a tree of `entries` on top of
        the head's tree, a commit of it whose only parent is the head, and the
        update of the head ref to that commit. `info` is the answer to the
        commit request. */
    method CommitEntries(baseTree: Sha, entries: seq<TreeEntry>, message: string) returns (fault: Option<ApiError>, info: CommitInfo)
      requires repo.head in repo.commits && repo.commits[repo.head].tree == baseTree && baseTree in repo.trees
      modifies this`repo, this`log
      ensures Run(repo, |log|, fault) == FinalRun(old(repo), faults, |old(log)|, entries, message)
      ensures |old(log)| < |log| <= |old(log)| + 3
      ensures log == old(log) + FinalSteps(baseTree, entries, message, old(repo.head), old(repo.nextId))[..|log| - |old(log)|]
      ensures info == CommitInfo(Sha(old(repo.nextId) + 1), Sha(old(repo.nextId)), [old(repo.head)], message)
      ensures fault.None? ==> repo.head == info.sha
    {
      ghost var steps := FinalSteps(baseTree, entries, message, repo.head, repo.nextId);
      ghost var log0 := log;
      var parent, treeSha := repo.head, Sha(repo.nextId);
      info := CommitInfo(Sha(treeSha.id + 1), treeSha, [parent], message);
      fault := Send(PostTree(baseTree, entries));
      assert log == log0 + steps[..1];
      if fault.Some? {
        return;
      }
      repo := AddTree(repo, repo.trees[baseTree] + EntryFiles(entries, repo.blobs));
      fault := Send(PostCommit(message, treeSha, [parent]));
      assert log == log0 + steps[..2];
      if fault.Some? {
        return;
      }
      repo := AddCommit(repo, Commit(message, treeSha, [parent]));
      fault := Send(PatchHeadRef(info.sha));
      assert log == log0 + steps[..3];
      if fault.None? {
        repo := MoveHead(repo, info.sha);
      }
    }

    /** The steps of `batchCommit` after its reads: the blobs, then the
        tree, the commit and the ref update, stopping at the first request
        that fails. When all get through, the answer names the new head. */
    method WriteFiles(files: seq<FileToCommit>, message: string, baseTree: Sha)
      returns (r: Result<CommitInfo, ApiError>)
      requires repo.head in repo.commits && repo.commits[repo.head].tree == baseTree && baseTree in repo.trees
      modifies this`repo, this`log
      ensures Run(repo, |log|, if r.Ok? then None else Some(r.error))
           == WriteRun(old(repo), faults, |old(log)|, files, message)
      ensures |old(log)| <= |log| <= |old(log)| + |files| + 3
      ensures log == old(log)
        + WriteRequests(files, message, old(repo.head), baseTree, old(repo.nextId))[..|log| - |old(log)|]
      ensures r.Ok? ==>
        r.value == CommitInfo(repo.head, Sha(old(repo.nextId) + |files|), [old(repo.head)], message)
    {
      ghost var g0, log0 := repo, log;
      BlobsRunKeeps(repo, faults, |log|, files);
      BlobsRunEnds(repo, faults, |log|, files);
      var fault, entries := PostBlobs(files);
      if fault.Some? {
        PrefixLeft(BlobRequests(files), FinalSteps(baseTree, entries, message, g0.head, g0.nextId + |files|),
                   |log| - |log0|);
        return Err(fault.value);
      }
      ghost var log1 := log;
      ghost var steps := FinalSteps(baseTree, entries, message, repo.head, repo.nextId);
      assert log1 == log0 + BlobRequests(files);
      assert steps == FinalSteps(baseTree, Entries(files, g0.nextId), message, g0.head, g0.nextId + |files|);
      var info;
      fault, info := CommitEntries(baseTree, entries, message);
      assert log == log1 + steps[..|log| - |log1|];
      PrefixJoin(log0, BlobRequests(files), steps, log, |log| - |log1|);
      r := if fault.Some? then Err(fault.value) else Ok(info);
    }

    /** `batchCommit(files, message)`. The steps run strictly in order, each
        after the previous one answered, and a failure at any step stops
        there and is what the call throws. The log holds the steps sent; the
        new repository is the one `BatchRun` describes, whose lemmas say what
        it holds; the answer names the new head commit, its tree, and the old
        head as its only parent. */
    method BatchCommit(files: seq<FileToCommit>, message: string) returns (r: Result<CommitInfo, ApiError>)
      requires Valid()
      modifies this`repo, this`log
      ensures Valid()
      ensures Run(repo, |log|, if r.Ok? then None else Some(r.error))
           == BatchRun(old(repo), faults, |old(log)|, files, message)
      ensures |old(log)| < |log| <= |old(log)| + |files| + 5
      ensures log == old(log)
        + BatchRequests(files, message, old(repo.head), old(repo.commits[repo.head].tree), old(repo.nextId))
          [..|log| - |old(log)|]
      ensures r.Ok? ==>
        r.value == CommitInfo(repo.head, Sha(old(repo.nextId) + |files|), [old(repo.head)], message)
    {
      ghost var g0, first, log0 := repo, repo.nextId, log;
      ghost var all := BatchRequests(files, message, repo.head, repo.commits[repo.head].tree, first);
      var fault, headSha, baseTree := ReadHead();
      BatchRunReads(g0, faults, |log0|, files, message);
      if fault.Some? {
        assert log == log0 + all[..|log| - |log0|];
        return Err(fault.value);
      }
      ghost var log1 := log;
      assert FaultAt(faults, |log0|).None? && FaultAt(faults, |log0| + 1).None?;
      assert |log1| == |log0| + 2 && repo == g0;
      r := WriteFiles(files, message, baseTree);
      WriteRunValid(g0, faults, |log1|, files, message);
      PrefixJoin(log0, [GetHeadRef, GetCommit(headSha)], WriteRequests(files, message, headSha, baseTree, first),
                 log, |log| - |log1|);
    }
  }

  // ---------------------------------------------------------------------------
  // Lemmas behind the store's methods
  // ---------------------------------------------------------------------------

  /** The new tree over `snap0` is `snap0` with all the committed files
      written over it. */
  lemma EntryFilesCommittedAll(snap0: Tree, blobs: map<Sha, Content>, files: seq<FileToCommit>,
                               es: seq<TreeEntry>, first: nat)
    requires es == Entries(files, first)
    requires forall k :: 0 <= k < |files| ==> es[k].sha in blobs && blobs[es[k].sha] == files[k].content
    ensures snap0 + EntryFiles(es, blobs) == Committed(snap0, files, first)
  {
    EntryFilesCommitted(snap0, blobs, files, es, first, |files|);
    assert files[..|files|] == files && es[..|files|] == es;
  }

  /** The tree the server builds names existing blobs with their contents. */
  lemma {:induction false} EntryFilesInBlobs(es: seq<TreeEntry>, blobs: map<Sha, Content>)
    ensures InBlobs(EntryFiles(es, blobs), blobs)
    decreases |es|
  {
    if es != [] {
      EntryFilesInBlobs(es[..|es| - 1], blobs);
    }
  }

  /** The new tree over `snap0`, built from the first `n` entries, is `snap0`
      with the first `n` committed files written over it. */
  lemma {:induction false} EntryFilesCommitted(snap0: Tree, blobs: map<Sha, Content>, files: seq<FileToCommit>,
                                               es: seq<TreeEntry>, first: nat, n: nat)
    requires n <= |files| && es == Entries(files, first)
    requires forall k :: 0 <= k < |files| ==> es[k].sha in blobs && blobs[es[k].sha] == files[k].content
    ensures snap0 + EntryFiles(es[..n], blobs) == Committed(snap0, files[..n], first)
    decreases n
  {
    if n == 0 {
      assert EntryFiles(es[..0], blobs) == map[];
      assert snap0 + map[] == snap0;
    } else {
      var fs := files[..n];
      assert fs[..n - 1] == files[..n - 1];
      assert es[..n][..n - 1] == es[..n - 1];
      EntryFilesCommitted(snap0, blobs, files, es, first, n - 1);
      var last := es[n - 1];
      assert last.sha in blobs;
      assert EntryFiles(es[..n], blobs)
          == EntryFiles(es[..n - 1], blobs)[last.path := StoredFile(blobs[last.sha], last.sha)];
    }
  }
}
