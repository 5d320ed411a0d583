/**
 * The wheel filename rewrite of `main`: the basename of the wheel is split on `-`, its last
 * field (the old platform tag together with the old extension) is overwritten by the computed
 * tag, and the fields are joined again with `.whl` appended. Wheel names follow the file-name
 * convention of PEP 427, `{distribution}-{version}(-{build})?-{python}-{abi}-{platform}.whl`,
 * but the rewrite neither checks the field count nor the old extension.
 */
module WheelName {
  import Strings

  const Extension: string := ".whl"

  /**
   * The renamed file: `fileName` up to and including its last `-` (nothing when it has none),
   * then `tag`, then `.whl`.
   */
  function RenamedFileName(fileName: string, tag: string): (r: string)
    ensures |r| >= |Extension| && r[|r| - |Extension|..] == Extension
    ensures '-' !in fileName ==> r == tag + Extension
    ensures '/' !in fileName && '/' !in tag ==> '/' !in r
  {
    fileName[..Strings.RFind(fileName, '-') + 1] + tag + Extension
  }

  /** The rewrite of main.py lines 58-60: split, overwrite the last field, join, add `.whl`. */
  method RenameWheelFile(fileName: string, tag: string) returns (renamed: string)
    ensures renamed == RenamedFileName(fileName, tag)
  {
    var parts := Strings.Split(fileName, '-');
    parts := parts[|parts| - 1 := tag];
    renamed := Strings.Join(parts, '-') + Extension;
    Strings.SplitReplaceLast(fileName, '-', tag);
  }

  /**
   * A name with a `-` keeps everything up to and including its last `-` verbatim; only the text
   * after it is replaced, by the tag and `.whl`.
   */
  lemma KeepsThroughLastDash(fileName: string, tag: string)
    requires '-' in fileName
    ensures exists k :: 0 <= k < |fileName| && fileName[k] == '-' &&
                        (forall j :: k < j < |fileName| ==> fileName[j] != '-') &&
                        RenamedFileName(fileName, tag) == fileName[..k + 1] + tag + Extension
  {
    var k := Strings.RFind(fileName, '-');
    assert fileName[k] == '-';
  }

  /** A name that already ends in `-`, the tag and `.whl` is its own renaming (for a tag without `-`). */
  lemma AlreadyTagged(kept: string, tag: string)
    requires kept == "" || kept[|kept| - 1] == '-'
    requires '-' !in tag
    ensures RenamedFileName(kept + tag + Extension, tag) == kept + tag + Extension
  {
    var tail := tag + Extension;
    assert kept + tag + Extension == kept + tail;
    assert '-' !in tail;
    Strings.RFindOfAppend(kept, tail, '-');
    assert (kept + tail)[..|kept|] == kept;
  }

  /** For a tag without `-`, renaming an already renamed file with the same tag changes nothing. */
  lemma RenameIdempotent(fileName: string, tag: string)
    requires '-' !in tag
    ensures RenamedFileName(RenamedFileName(fileName, tag), tag) == RenamedFileName(fileName, tag)
  {
    var kept := fileName[..Strings.RFind(fileName, '-') + 1];
    assert kept == "" || kept[|kept| - 1] == '-';
    AlreadyTagged(kept, tag);
  }
}
