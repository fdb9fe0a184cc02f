/**
 * `LinkGenerator` of `utils/kh/kh_link.py`: a link to one page of a KH2 project, whose
 * `page_uid` query parameter carries the file name and the zero-based page index, each as
 * UTF-8 in Base 64, separated by a comma.
 */
module KhLink {
  import opened Wrappers
  import Text
  import Utf8
  import Base64

  const DefaultMode := "actual"

  /** `b64encode(s.encode("utf-8")).decode("utf-8")`. */
  function EncodeText(s: string): string
  {
    Base64.Encode(Utf8.Encode(s))
  }

  /** The text an `EncodeText` result stands for, or None when it is not one. */
  function DecodeText(t: string): Option<string>
  {
    match Base64.Decode(t)
    case None => None
    case Some(b) => Utf8.Decode(b)
  }

  /** Encoded text reads back as itself. */
  lemma DecodeEncodeText(s: string)
    ensures DecodeText(EncodeText(s)) == Some(s)
  {
    Base64.DecodeEncode(Utf8.Encode(s));
    Utf8.DecodeEncode(s);
  }

  /** `base64_page_uid`: the encoded file name, a comma, the encoded `str(page_number - 1)`. */
  function PageUid(fileName: string, pageNumber: int): string
  {
    EncodeText(fileName) + "," + EncodeText(Text.IntToString(pageNumber - 1))
  }

  /** Python's `int(s)` on what `str` of an int writes, or None for any other text. */
  function ReadInt(s: string): Option<int>
  {
    if |s| >= 1 && (if s[0] == '-' then Text.AllDigits(s[1..]) else Text.AllDigits(s)) then Some(Text.ParseInt(s))
    else None
  }

  /** The file name and one-based page number a page uid names, or None when it names none. */
  function ReadPageUid(uid: string): Option<(string, int)>
  {
    var parts := Text.Split(uid, ',');
    if |parts| != 2 then None
    else
      match (DecodeText(parts[0]), DecodeText(parts[1]))
      case (Some(name), Some(index)) =>
        (match ReadInt(index)
         case Some(i) => Some((name, i + 1))
         case None => None)
      case _ => None
  }

  /** A page uid has exactly one comma, between the two encodings. */
  lemma PageUidSplits(fileName: string, pageNumber: int)
    ensures Text.Split(PageUid(fileName, pageNumber), ',')
      == [EncodeText(fileName), EncodeText(Text.IntToString(pageNumber - 1))]
  {
    var a, b := EncodeText(fileName), EncodeText(Text.IntToString(pageNumber - 1));
    Base64.NotInEncoding(Utf8.Encode(fileName), ',');
    Base64.NotInEncoding(Utf8.Encode(Text.IntToString(pageNumber - 1)), ',');
    Text.SplitAround(a, b, ',');
    Text.SplitWithoutSep(a, ',');
    Text.SplitWithoutSep(b, ',');
    assert PageUid(fileName, pageNumber) == a + [','] + b;
  }

  /** The page uid names the file and the page it was made from. */
  lemma ReadPageUidOfPageUid(fileName: string, pageNumber: int)
    ensures ReadPageUid(PageUid(fileName, pageNumber)) == Some((fileName, pageNumber))
  {
    var index := Text.IntToString(pageNumber - 1);
    PageUidSplits(fileName, pageNumber);
    DecodeEncodeText(fileName);
    DecodeEncodeText(index);
    ReadIntOfString(pageNumber - 1);
  }

  /** `int(str(i)) == i`. */
  lemma ReadIntOfString(i: int)
    ensures ReadInt(Text.IntToString(i)) == Some(i)
  {
    var s := Text.IntToString(i);
    if i >= 0 {
      assert Text.IsDigit(s[0]);
    }
    Text.IntToStringValue(i);
  }

  /** `LinkGenerator(instance_url, project_id)`. */
  datatype LinkGenerator = LinkGenerator(instanceUrl: string, projectId: string)
  {
    /** The part of every link before the page uid. */
    function Prefix(): string
    {
      instanceUrl + "/project/" + projectId + "/general_link?page_uid="
    }

    /** `generate_link`: the project's general link to one page, opened in `mode`. */
    function GenerateLink(fileName: string, pageNumber: int, mode: string := DefaultMode): (link: string)
      ensures LinksTo(Prefix(), link, fileName, pageNumber, mode)
    {
      LinkReadsBack(Prefix(), fileName, pageNumber, mode);
      Prefix() + PageUid(fileName, pageNumber) + "&mode=" + mode
    }
  }

  /**
   * What a general link says: it starts with the project's prefix, the text after it up to the
   * first ampersand is the page uid of `fileName` and `pageNumber`, and it ends with the `mode`
   * parameter.
   */
  predicate LinksTo(prefix: string, link: string, fileName: string, pageNumber: int, mode: string)
  {
    && |prefix| <= |link| && link[..|prefix|] == prefix
    && ReadPageUid(Text.Split(link[|prefix|..], '&')[0]) == Some((fileName, pageNumber))
    && |link| >= 6 + |mode| && link[|link| - 6 - |mode|..] == "&mode=" + mode
  }

  /** A concatenation starting with `prefix` splits back into it and the rest. */
  lemma PrefixAndTail(prefix: string, uid: string, tail: string)
    requires |tail| >= 1 && tail[0] == '&'
    ensures |prefix| <= |prefix + uid + tail|
    ensures (prefix + uid + tail)[..|prefix|] == prefix
    ensures (prefix + uid + tail)[|prefix|..] == uid + ['&'] + tail[1..]
  {
    assert tail == ['&'] + tail[1..];
  }

  /** The link ends with the `mode` parameter. */
  lemma ModeAtEnd(head: string, mode: string)
    ensures var link := head + "&mode=" + mode;
      |link| >= 6 + |mode| && link[|link| - 6 - |mode|..] == "&mode=" + mode
  {
    var tail := "&mode=" + mode;
    assert head + "&mode=" + mode == head + tail;
    assert (head + tail)[|head|..] == tail;
  }

  /** After the prefix, the text up to the first ampersand names the file and the page. */
  lemma UidAfterPrefix(prefix: string, fileName: string, pageNumber: int, mode: string)
    ensures var link := prefix + PageUid(fileName, pageNumber) + "&mode=" + mode;
      |prefix| <= |link| && link[..|prefix|] == prefix
      && ReadPageUid(Text.Split(link[|prefix|..], '&')[0]) == Some((fileName, pageNumber))
  {
    var uid, tail := PageUid(fileName, pageNumber), "&mode=" + mode;
    assert prefix + uid + "&mode=" + mode == prefix + uid + tail;
    UidEndsAtAmpersand(fileName, pageNumber, mode);
    ReadPageUidOfPageUid(fileName, pageNumber);
    PrefixAndTail(prefix, uid, tail);
  }

  /** A link built from a prefix, a page uid and a mode says what it was built from. */
  lemma LinkReadsBack(prefix: string, fileName: string, pageNumber: int, mode: string)
    ensures LinksTo(prefix, prefix + PageUid(fileName, pageNumber) + "&mode=" + mode, fileName, pageNumber, mode)
  {
    UidAfterPrefix(prefix, fileName, pageNumber, mode);
    ModeAtEnd(prefix + PageUid(fileName, pageNumber), mode);
  }

  /** The page uid has no ampersand, so the `page_uid` parameter ends where the uid ends. */
  lemma UidEndsAtAmpersand(fileName: string, pageNumber: int, mode: string)
    ensures Text.Split(PageUid(fileName, pageNumber) + ['&'] + ("&mode=" + mode)[1..], '&')[0] == PageUid(fileName, pageNumber)
  {
    var a, b := EncodeText(fileName), EncodeText(Text.IntToString(pageNumber - 1));
    Base64.NotInEncoding(Utf8.Encode(fileName), '&');
    Base64.NotInEncoding(Utf8.Encode(Text.IntToString(pageNumber - 1)), '&');
    var uid := PageUid(fileName, pageNumber);
    assert uid == a + [','] + b;
    assert '&' !in uid;
    Text.SplitAround(uid, ("&mode=" + mode)[1..], '&');
    Text.SplitWithoutSep(uid, '&');
  }
}
