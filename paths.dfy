/**
 * Request paths of the client: `apiClient.projectURL` and the trailing
 * segments that `Tags`, `File`, `ProjectInfo` and `Archive` choose
 * (client_implementation.go).
 */
module Paths {
  import opened ByteStrings
  import PathEscape
  import Decimal

  const Projects: Bytes := Ascii("projects")
  const Repository: Bytes := Ascii("repository")
  const TagsSegment: Bytes := Ascii("tags")
  const Files: Bytes := Ascii("files")
  const ArchiveZip: Bytes := Ascii("archive.zip")

  /** The parts `projectURL` joins: an empty first part, `projects`, the escaped project, the items. */
  function ProjectSegments(project: Bytes, items: seq<Bytes>): seq<Bytes>
  {
    [[], Projects, PathEscape.Escape(project)] + items
  }

  /** The path `projectURL(project, items...)` returns. */
  function ProjectPath(project: Bytes, items: seq<Bytes>): Bytes
  {
    Join(ProjectSegments(project, items), Slash)
  }

  /**
   * `projectURL` as the source runs it: a slice of `len(items)+3` strings, the
   * first three set in place, the items copied behind them, the whole joined with `/`.
   */
  method ProjectUrl(project: Bytes, items: seq<Bytes>) returns (url: Bytes)
    ensures url == ProjectPath(project, items)
  {
    var urlItems := new Bytes[|items| + 3];
    urlItems[0] := [];
    urlItems[1] := Projects;
    urlItems[2] := PathEscape.Escape(project);
    var i := 0;
    while i < |items|
      invariant 0 <= i <= |items|
      invariant urlItems[0] == [] && urlItems[1] == Projects && urlItems[2] == PathEscape.Escape(project)
      invariant forall k :: 0 <= k < i ==> urlItems[3 + k] == items[k]
    {
      urlItems[3 + i] := items[i];
      i := i + 1;
    }
    assert urlItems[..] == ProjectSegments(project, items);
    url := Join(urlItems[..], Slash);
  }

  /** `Tags`: `repository/tags`, then the prefix as it is (not escaped) when it is non-empty. */
  function TagsPath(project: Bytes, tagPrefix: Bytes): Bytes
  {
    if |tagPrefix| > 0 then ProjectPath(project, [Repository, TagsSegment, tagPrefix])
    else ProjectPath(project, [Repository, TagsSegment])
  }

  /** `File`: `repository/files`, then the escaped file path. */
  function FilePath(project: Bytes, path: Bytes): Bytes
  {
    ProjectPath(project, [Repository, Files, PathEscape.Escape(path)])
  }

  /** `ProjectInfo`: the project alone. */
  function ProjectInfoPath(project: Bytes): Bytes
  {
    ProjectPath(project, [])
  }

  /** `Archive`: the decimal project ID in the project slot, then `repository/archive.zip`. */
  function ArchivePath(projectID: int): Bytes
  {
    ProjectPath(Decimal.Itoa(projectID), [Repository, ArchiveZip])
  }

  /**
   * Every project path is `/projects/`, the escaped project, and then each
   * item behind its own `/`, in order; with no items nothing follows.
   */
  lemma ProjectPathShape(project: Bytes, items: seq<Bytes>)
    ensures ProjectPath(project, items)
         == [Slash] + Projects + [Slash] + PathEscape.Escape(project) + EachPrefixed(items, Slash)
  {
    JoinThreeThen([], Projects, PathEscape.Escape(project), items, Slash);
  }

  /** One more item lands behind its own `/`. */
  lemma ProjectPathSnoc(project: Bytes, items: seq<Bytes>, last: Bytes)
    ensures ProjectPath(project, items + [last]) == ProjectPath(project, items) + [Slash] + last
  {
    assert ProjectSegments(project, items + [last]) == ProjectSegments(project, items) + [last];
    JoinSnoc(ProjectSegments(project, items), last, Slash);
  }

  /**
   * When no item holds a `/`, the path splits back into exactly its
   * `len(items)+3` parts: an empty one, `projects`, the escaped project (one
   * part whatever the project holds, `/` included), then the items.
   */
  lemma ProjectPathSegments(project: Bytes, items: seq<Bytes>)
    requires forall i :: 0 <= i < |items| ==> Slash !in items[i]
    ensures Split(ProjectPath(project, items), Slash) == ProjectSegments(project, items)
    ensures |ProjectSegments(project, items)| == |items| + 3
  {
    var parts := ProjectSegments(project, items);
    assert Slash !in Projects;
    forall i | 0 <= i < |parts| ensures Slash !in parts[i] {
      if i >= 3 { assert parts[i] == items[i - 3]; }
    }
    SplitJoin(parts, Slash);
  }

  /** `ProjectInfo` asks for `/projects/<escaped project>` with no trailing slash. */
  lemma ProjectInfoPathExact(project: Bytes)
    ensures ProjectInfoPath(project) == [Slash] + Projects + [Slash] + PathEscape.Escape(project)
  {
    ProjectPathShape(project, []);
  }

  /**
   * `Tags` adds `/repository/tags` to the project path, and `/<prefix>`
   * behind it only when the prefix is not empty.
   */
  lemma TagsPathShape(project: Bytes, tagPrefix: Bytes)
    ensures TagsPath(project, tagPrefix)
         == ProjectInfoPath(project) + [Slash] + Repository + [Slash] + TagsSegment
            + (if tagPrefix == [] then [] else [Slash] + tagPrefix)
  {
    TwoItemsThenOptional(project, Repository, TagsSegment, tagPrefix);
  }

  /** Two items, then a third one unless it is empty, each behind its own `/`. */
  lemma TwoItemsThenOptional(project: Bytes, first: Bytes, second: Bytes, last: Bytes)
    ensures ProjectPath(project, if last == [] then [first, second] else [first, second, last])
         == ProjectPath(project, []) + [Slash] + first + [Slash] + second
            + (if last == [] then [] else [Slash] + last)
  {
    var none: seq<Bytes> := [];
    ProjectPathSnoc(project, none, first);
    assert none + [first] == [first];
    ProjectPathSnoc(project, [first], second);
    assert [first] + [second] == [first, second];
    if last != [] {
      ProjectPathSnoc(project, [first, second], last);
      assert [first, second] + [last] == [first, second, last];
    }
  }

  /**
   * The tag prefix is not escaped: the path splits into the five fixed parts
   * followed by the parts of the prefix itself, so a prefix holding `/`
   * spans several segments.
   */
  lemma TagsPathSegments(project: Bytes, tagPrefix: Bytes)
    ensures Split(TagsPath(project, tagPrefix), Slash)
         == [[], Projects, PathEscape.Escape(project), Repository, TagsSegment]
            + (if tagPrefix == [] then [] else Split(tagPrefix, Slash))
  {
    var two := [Repository, TagsSegment];
    assert Slash !in Repository && Slash !in TagsSegment;
    ProjectPathSegments(project, two);
    assert ProjectSegments(project, two) == [[], Projects, PathEscape.Escape(project), Repository, TagsSegment];
    if tagPrefix != [] {
      ProjectPathSnoc(project, two, tagPrefix);
      assert two + [tagPrefix] == [Repository, TagsSegment, tagPrefix];
      SplitAround(ProjectPath(project, two), tagPrefix, Slash);
    } else {
      assert ProjectSegments(project, two) + [] == ProjectSegments(project, two);
    }
  }

  /** `File` asks for exactly six parts, the escaped file path last and whole. */
  lemma FilePathSegments(project: Bytes, path: Bytes)
    ensures Split(FilePath(project, path), Slash)
         == [[], Projects, PathEscape.Escape(project), Repository, Files, PathEscape.Escape(path)]
  {
    var items := [Repository, Files, PathEscape.Escape(path)];
    assert Slash !in Repository && Slash !in Files;
    ProjectPathSegments(project, items);
  }

  /** The decimal rendering of an ID needs no escaping. */
  lemma ItoaNeedsNoEscape(n: int)
    ensures PathEscape.Escape(Decimal.Itoa(n)) == Decimal.Itoa(n)
  {
    var r := Decimal.Itoa(n);
    forall i | 0 <= i < |r| ensures !PathEscape.ShouldEscape(r[i]) {
      if i > 0 { assert Decimal.IsDigit(r[i]); }
    }
    PathEscape.EscapeIdentity(r);
  }

  /** `Archive` puts the decimal ID in the project slot, then `repository` and `archive.zip`. */
  lemma ArchivePathSegments(projectID: int)
    ensures Split(ArchivePath(projectID), Slash)
         == [[], Projects, Decimal.Itoa(projectID), Repository, ArchiveZip]
  {
    assert Slash !in Repository && Slash !in ArchiveZip;
    ProjectPathSegments(Decimal.Itoa(projectID), [Repository, ArchiveZip]);
    ItoaNeedsNoEscape(projectID);
  }
}
