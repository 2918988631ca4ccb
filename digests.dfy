/**
 * File fingerprints. The three tools decide whether two copies of a file
 * are the same by comparing a digest: the SHA-1 of the content of a
 * regular file, or the target of a symbolic link.
 */
module Digests {

  /** A path as its components; the first component of an absolute path is "/". */
  type PathParts = seq<string>

  /** A SHA-1 digest (hashlib's `digest()`), 20 bytes. */
  type Sha1 = s: seq<bv8> | |s| == 20 witness seq(20, i => 0 as bv8)

  datatype Digest =
    | Bytes(bytes: seq<bv8>)      // a SHA-1 digest, or b'' when etcmaint cannot read the file
    | Link(target: PathParts)     // where a symbolic link points

  /** etcmaint's marker for a file it cannot read: the empty byte string. */
  const Unreadable: Digest := Bytes([])
}

/**
 * The EtcPath class of etcmaint/etcmaint.py: a file under /etc or under
 * the repository's working tree, with a memoised digest and an equality
 * that never holds for an unreadable file.
 */
module EtcMaintPath {
  import opened Common
  import opened PyText
  import opened Digests

  /** What the file system answers for one path when its digest is first asked for. */
  datatype Observation =
    | StatFailed                      // is_symlink() raised OSError
    | Symlink(resolved: PathParts)    // a symbolic link, and what resolve() returns for it
    | File(sha1: Option<Sha1>)        // anything else: its SHA-1, or None when opening or reading failed

  /** PurePath.relative_to: the remaining components when base is a prefix. */
  function RelativeTo(p: PathParts, base: PathParts): (r: Option<PathParts>)
    ensures r.Some? <==> |base| <= |p| && p[..|base|] == base
    ensures r.Some? ==> base + r.value == p
  {
    if |base| <= |p| && p[..|base|] == base then
      assert p == p[..|base|] + p[|base|..];
      Some(p[|base|..])
    else None
  }

  /**
   * The digest property of EtcPath. A symbolic link is fingerprinted by its
   * resolved target, relative to the directory holding the tree (basedir)
   * when it points inside it, else relative to the root directory, else
   * the absolute resolved path.
   */
  function DigestOf(obs: Observation, basedir: PathParts, rootDir: PathParts): (d: Digest)
    ensures d == Unreadable <==> obs.StatFailed? || obs == File(None)
    ensures obs.File? && obs.sha1.Some? ==> d == Bytes(obs.sha1.value)
    ensures obs.Symlink? ==>
              d.Link?
              && (basedir + d.target == obs.resolved
                  || (RelativeTo(obs.resolved, basedir).None? && rootDir + d.target == obs.resolved)
                  || (RelativeTo(obs.resolved, basedir).None? && RelativeTo(obs.resolved, rootDir).None?
                      && d.target == obs.resolved))
  {
    match obs
    case StatFailed => Unreadable
    case File(None) => Unreadable
    case File(Some(h)) => Bytes(h)
    case Symlink(resolved) =>
      match RelativeTo(resolved, basedir)
      case Some(rel) => Link(rel)
      case None =>
        match RelativeTo(resolved, rootDir)
        case Some(rel) => Link(rel)
        case None => Link(resolved)
  }

  /**
   * A link in /etc and its copy in the repository get the same digest when
   * both resolve to the same place relative to their own tree: the
   * relative target is what is compared.
   */
  lemma LinkDigestIsTreeRelative(basedir: PathParts, rootDir: PathParts, rel: PathParts)
    ensures DigestOf(Symlink(basedir + rel), basedir, rootDir) == Link(rel)
  {
    assert (basedir + rel)[..|basedir|] == basedir;
  }

  /**
   * EtcPath.__eq__: both digests are the same and readable. An unreadable
   * file is equal to nothing, itself included, so `!=` holds for it.
   */
  predicate Same(a: Digest, b: Digest)
  {
    a == b && a != Unreadable
  }

  /** Same is symmetric and transitive, and reflexive exactly on readable digests. */
  lemma SamePartialEquivalence(a: Digest, b: Digest, c: Digest)
    ensures Same(a, b) ==> Same(b, a)
    ensures Same(a, b) && Same(b, c) ==> Same(a, c)
    ensures Same(a, a) <==> a != Unreadable
    ensures !Same(a, Unreadable) && !Same(Unreadable, a)
  {
  }

  class EtcPath {
    const rootDir: PathParts
    const baseDir: PathParts
    const name: string
    var memo: Option<Digest>

    /** EtcPath(root_dir, *parts): the last part is a path under etc. */
    constructor (rootDir: PathParts, baseDir: PathParts, name: string)
      requires StartsWith(name, "etc")
      ensures this.rootDir == rootDir && this.baseDir == baseDir && this.name == name
      ensures memo == None
    {
      this.rootDir := rootDir;
      this.baseDir := baseDir;
      this.name := name;
      memo := None;
    }

    /**
     * The digest is computed from the file system the first time only; it
     * keeps its value after the file changes (the package extraction
     * relies on this).
     */
    method Digest(obs: Observation) returns (d: Digest)
      modifies this
      ensures old(memo).Some? ==> d == old(memo).value
      ensures old(memo).None? ==> d == DigestOf(obs, baseDir, rootDir)
      ensures memo == Some(d)
    {
      if memo.None? {
        memo := Some(DigestOf(obs, baseDir, rootDir));
      }
      d := memo.value;
    }

    /** `self == other`, given what the file system answers for each path. */
    method Equals(other: EtcPath, obsThis: Observation, obsOther: Observation) returns (r: bool)
      modifies this, other
      ensures memo == Some(if old(memo).Some? then old(memo).value else DigestOf(obsThis, baseDir, rootDir))
      ensures other != this ==>
                other.memo == Some(if old(other.memo).Some? then old(other.memo).value
                                   else DigestOf(obsOther, other.baseDir, other.rootDir))
      ensures other.memo.Some? && r == Same(memo.value, other.memo.value)
    {
      var a := Digest(obsThis);
      var b := other.Digest(obsOther);
      var a2 := Digest(obsThis);
      r := a == b && a2 != Unreadable;
    }
  }
}
