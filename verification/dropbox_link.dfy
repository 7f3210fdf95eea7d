/**
 The web application's `modify_dropbox_link` (app.py): a Dropbox share link
 ending in `dl=0` (preview page) is turned into one ending in `dl=1` (direct
 download). The rewrite is `re.sub(r"dl=0$", "dl=1", link)`, applied only when
 `"dropbox.com"` occurs somewhere in the link.
 */
module DropboxLink {
  import opened Text
  import PyRe

  const Host := "dropbox.com"
  const Preview := "dl=0"
  const Direct := "dl=1"

  /** The link with a trailing `dl=0` (possibly followed by one final line break) made `dl=1`, when it mentions Dropbox. */
  function ModifyDropboxLink(link: string): (r: string)
    ensures |r| == |link|
    ensures !Contains(link, Host) ==> r == link
    ensures !EndsWith(link, Preview) && !EndsWith(link, Preview + "\n") ==> r == link
    ensures Contains(link, Host) && EndsWith(link, Preview) ==> r == link[..|link| - 1] + "1"
    ensures Contains(link, Host) && EndsWith(link, Preview + "\n") ==> r == link[..|link| - 2] + "1\n"
    ensures forall i | 0 <= i < |link| && r[i] != link[i] ::
      && link[i] == '0' && r[i] == '1'
      && (i == |link| - 1 || (i == |link| - 2 && link[|link| - 1] == '\n'))
  {
    if Contains(link, Host) then PyRe.SubAtEnd(Preview, Direct, link) else link
  }

  /** Rewriting twice is rewriting once: a rewritten link ends in `dl=1`, which the pattern no longer matches. */
  lemma Idempotent(link: string)
    ensures ModifyDropboxLink(ModifyDropboxLink(link)) == ModifyDropboxLink(link)
  {
    var r := ModifyDropboxLink(link);
    if r != link {
      if EndsWith(link, Preview) {
        assert r[|r| - 4..] == Direct;
      } else {
        assert EndsWith(link, Preview + "\n");
        assert r[|r| - 5..] == Direct + "\n";
      }
      assert !EndsWith(r, Preview);
      assert !EndsWith(r, Preview + "\n");
    }
  }

  /**
   An occurrence of `dl=0` that is not the end-anchored one (such as the
   `dl=0` of `?dl=0&raw=1`) survives the rewrite unchanged.
   */
  lemma EarlierOccurrenceKept(link: string, i: nat)
    requires OccursAt(link, Preview, i)
    requires i + 4 != |link|
    requires !(i + 4 == |link| - 1 && link[|link| - 1] == '\n')
    ensures OccursAt(ModifyDropboxLink(link), Preview, i)
  {
    var r := ModifyDropboxLink(link);
    forall k | i <= k < i + 4
      ensures r[k] == link[k]
    {
      assert link[k] == link[i..i + 4][k - i] == Preview[k - i];
      if k < i + 3 {
        assert link[k] != '0';
      }
    }
    assert r[i..i + 4] == link[i..i + 4];
  }

  /**
   A share link carrying further query parameters after `dl=0` is left as it
   is. This is one concrete instance, not a separate property: in general it
   follows from `EarlierOccurrenceKept` together with `ModifyDropboxLink`'s
   clause for links ending in neither form of `dl=0`.
   */
  lemma QueryParameterAfterPreviewKept()
    ensures ModifyDropboxLink("https://www.dropbox.com/s/abc/f.pdf?dl=0&raw=1")
         == "https://www.dropbox.com/s/abc/f.pdf?dl=0&raw=1"
  {
    var link := "https://www.dropbox.com/s/abc/f.pdf?dl=0&raw=1";
    assert link[|link| - 4..] != Preview;
    assert link[|link| - 5..] != Preview + "\n";
  }

  /** The rewrite keeps the link a Dropbox link: the host name has no `0` to change. */
  lemma HostKept(link: string)
    ensures Contains(ModifyDropboxLink(link), Host) <==> Contains(link, Host)
  {
    var r := ModifyDropboxLink(link);
    forall i | 0 <= i <= |link| && OccursAt(link, Host, i)
      ensures OccursAt(r, Host, i)
    {
      SameOutsideZeros(link, r, i);
    }
    forall i | 0 <= i <= |r| && OccursAt(r, Host, i)
      ensures OccursAt(link, Host, i)
    {
      SameOutsideZeros(link, r, i);
    }
  }

  /** A window of the host's length holding the host reads the same before and after the rewrite. */
  lemma SameOutsideZeros(link: string, r: string, i: nat)
    requires r == ModifyDropboxLink(link)
    requires OccursAt(link, Host, i) || OccursAt(r, Host, i)
    ensures link[i..i + |Host|] == r[i..i + |Host|]
  {
    var w := if OccursAt(link, Host, i) then link else r;
    forall k | i <= k < i + |Host|
      ensures link[k] == r[k]
    {
      assert w[k] == w[i..i + |Host|][k - i] == Host[k - i];
    }
  }
}
