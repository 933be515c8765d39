/** Where the section pattern `===\s*NAME\s*===\n([\s\S]+?)(?=\n===|$)` matches in the text
    the display formatters produce: a header line `=== NAME ===` per file followed by the
    file's contents, the files separated by a blank line. */
module Sections {
  import opened Wrappers
  import opened PyStrings
  import opened Scanners

  /** The header line of one file, with the newline that ends it. */
  function Header(key: string): (r: string)
    ensures |r| == |key| + 9
  {
    "=== " + key + " ===\n"
  }

  /** The display text of files `keys[k]` with contents `values[k]`. */
  function Layout(keys: seq<string>, values: seq<string>): (r: string)
    requires |keys| == |values| && keys != []
    ensures StartsAt(r, 0, "=== ")
    decreases |keys|
  {
    if |keys| == 1 then Header(keys[0]) + values[0]
    else Header(keys[0]) + values[0] + "\n\n" + Layout(keys[1..], values[1..])
  }

  /** A file name as the formatters write it: no spaces, no `=` and no backquote. */
  predicate KeyChars(key: string) {
    key != [] && forall d :: 0 <= d < |key| ==> !IsSpace(key[d]) && key[d] != '=' && key[d] != '`'
  }

  /** File contents the display text carries through: stripped, without a fence marker
      and without `===`. */
  predicate Clean(v: string) {
    IsStripped(v) && !Contains(v, "```") && !Contains(v, "===")
  }

  /** Two names that differ, letters compared without case, at a place both have. */
  ghost predicate CiDiffer(a: string, b: string) {
    exists d :: 0 <= d < |a| && d < |b| && LowerChar(a[d]) != LowerChar(b[d])
  }

  ghost predicate GoodKeys(keys: seq<string>) {
    (forall k :: 0 <= k < |keys| ==> KeyChars(keys[k]))
    && (forall i, j :: 0 <= i < |keys| && 0 <= j < |keys| && i != j ==> CiDiffer(keys[i], keys[j]))
  }

  /** The block of one file starts at `o`: its header, its contents, and then either the
      end of the text or the blank line before the next header. */
  predicate BlockAt(text: string, o: nat, key: string, v: string, last: bool) {
    StartsAt(text, o, Header(key)) && StartsAt(text, o + |key| + 9, v)
    && if last then o + |key| + 9 + |v| == |text| else StartsAt(text, o + |key| + 9 + |v|, "\n\n=== ")
  }

  /** The blocks of files `keys` follow each other from `o` on. */
  predicate LaidOut(text: string, o: nat, keys: seq<string>, values: seq<string>)
    decreases |keys|
  {
    |keys| == |values| && keys != []
    && BlockAt(text, o, keys[0], values[0], |keys| == 1)
    && (|keys| > 1 ==> LaidOut(text, o + |keys[0]| + |values[0]| + 11, keys[1..], values[1..]))
  }

  lemma BlockAtShift(p: string, r: string, o: nat, key: string, v: string, last: bool)
    requires BlockAt(r, o, key, v, last)
    ensures BlockAt(p + r, |p| + o, key, v, last)
  {
    var s := o + |key| + 9;
    StartsAtShift(p, r, o, Header(key));
    StartsAtShift(p, r, s, v);
    if !last {
      StartsAtShift(p, r, s + |v|, "\n\n=== ");
    }
  }

  lemma {:induction false} LaidOutShift(p: string, r: string, o: nat, keys: seq<string>, values: seq<string>)
    requires LaidOut(r, o, keys, values)
    ensures LaidOut(p + r, |p| + o, keys, values)
    decreases |keys|
  {
    BlockAtShift(p, r, o, keys[0], values[0], |keys| == 1);
    if |keys| > 1 {
      var o' := o + |keys[0]| + |values[0]| + 11;
      LaidOutShift(p, r, o', keys[1..], values[1..]);
      assert |p| + o' == |p| + o + |keys[0]| + |values[0]| + 11;
    }
  }

  /** A last block on its own. */
  lemma OnlyBlock(key: string, v: string)
    ensures BlockAt(Header(key) + v, 0, key, v, true)
  {
    var text := Header(key) + v;
    var h := Header(key);
    assert text[..|h|] == h;
    assert text[|h|..|h| + |v|] == v;
  }

  /** A block followed by the blank line and a further header. */
  lemma FirstBlock(key: string, v: string, r: string)
    requires StartsAt(r, 0, "=== ")
    ensures BlockAt(Header(key) + v + "\n\n" + r, 0, key, v, false)
  {
    var text := Header(key) + v + "\n\n" + r;
    var h := Header(key);
    assert text[..|h|] == h;
    assert text[|h|..|h| + |v|] == v;
    assert r[..4] == "=== ";
    assert text[|h| + |v|..|h| + |v| + 6] == "\n\n" + r[..4];
  }

  /** The formatted text is laid out block after block. */
  lemma {:induction false} LayoutLaidOut(keys: seq<string>, values: seq<string>)
    requires |keys| == |values| && keys != []
    ensures LaidOut(Layout(keys, values), 0, keys, values)
    decreases |keys|
  {
    if |keys| == 1 {
      OnlyBlock(keys[0], values[0]);
    } else {
      var p := Header(keys[0]) + values[0] + "\n\n";
      var r := Layout(keys[1..], values[1..]);
      assert Layout(keys, values) == p + r;
      FirstBlock(keys[0], values[0], r);
      LayoutLaidOut(keys[1..], values[1..]);
      LaidOutShift(p, r, 0, keys[1..], values[1..]);
      assert |p| == |keys[0]| + |values[0]| + 11;
    }
  }

  /** The characters of a header line `=== key ===` and its newline, written from `o`. */
  lemma HeaderChars(text: string, o: nat, key: string)
    requires StartsAt(text, o, Header(key))
    ensures o + |key| + 9 <= |text|
    ensures text[o] == '=' && text[o + 1] == '=' && text[o + 2] == '=' && text[o + 3] == ' '
    ensures forall d :: 0 <= d < |key| ==> text[o + 4 + d] == key[d]
    ensures text[o + |key| + 4] == ' ' && text[o + |key| + 5] == '=' && text[o + |key| + 6] == '='
    ensures text[o + |key| + 7] == '=' && text[o + |key| + 8] == '\n'
  {
    var h := Header(key);
    forall d | 0 <= d < |h| ensures text[o + d] == h[d] {
      assert text[o + d] == text[o..o + |h|][d];
    }
    forall d | 0 <= d < |key| ensures text[o + 4 + d] == key[d] {
      assert h[4 + d] == key[d];
    }
  }

  /** `t` occurs in `text` inside an occurrence of `v` exactly where it occurs in `v`. */
  lemma StartsAtWithin(text: string, s: nat, v: string, j: nat, t: string)
    requires StartsAt(text, s, v) && j + |t| <= |v|
    ensures StartsAt(text, s + j, t) <==> StartsAt(v, j, t)
  {
    var inText, inV := text[s + j..s + j + |t|], v[j..j + |t|];
    forall d | 0 <= d < |t| ensures inText[d] == inV[d] {
      assert text[s..s + |v|][j + d] == text[s + j + d];
    }
    assert inText == inV;
  }

  /** No run of three `ch` starts inside contents that hold none, when the character after
      the contents, if there is one, is not `ch` either. */
  lemma NoRunIn(text: string, s: nat, v: string, b: nat, ch: char)
    requires StartsAt(text, s, v) && !Contains(v, [ch, ch, ch])
    requires s + |v| == |text| || text[s + |v|] != ch
    requires s <= b < s + |v|
    ensures !StartsAt(text, b, [ch, ch, ch])
  {
    var hi := s + |v|;
    if b + 3 <= hi {
      ContainsIff(v, [ch, ch, ch]);
      StartsAtWithin(text, s, v, b - s, [ch, ch, ch]);
    } else if b + 3 <= |text| {
      assert text[b..b + 3][hi - b] == text[hi];
    }
  }

  lemma StartsAtPrefix(text: string, b: nat, t: string, n: nat)
    requires n <= |t|
    ensures StartsAt(text, b, t) ==> StartsAt(text, b, t[..n])
  {
    if StartsAt(text, b, t) {
      assert text[b..b + n] == text[b..b + |t|][..n];
    }
  }

  lemma StartsAtTail(text: string, b: nat, t: string)
    requires t != []
    ensures StartsAt(text, b, t) ==> StartsAt(text, b + 1, t[1..])
  {
    if StartsAt(text, b, t) {
      assert text[b + 1..b + |t|] == text[b..b + |t|][1..];
    }
  }

  lemma LowerCharSpace(c: char, x: char)
    requires IsSpace(c) && !IsSpace(x)
    ensures LowerChar(c) != LowerChar(x)
  {
  }

  /** A name without spaces that is found at the start of some contents ends inside them,
      when a space or the end of the text follows those contents. */
  lemma NameInContents(text: string, s: nat, v: string, name: string)
    requires StartsAt(text, s, v) && KeyChars(name)
    requires s + |v| == |text| || IsSpace(text[s + |v|])
    ensures CiStartsAt(text, s, name) ==> |name| <= |v|
  {
    var hi := s + |v|;
    if hi < |text| && hi < s + |name| {
      CiStartsAtChars(text, s, name);
      LowerCharSpace(text[hi], name[hi - s]);
    }
  }

  lemma CiMismatch(text: string, i: nat, name: string, d: nat)
    requires d < |name| && i + d < |text| && LowerChar(text[i + d]) != LowerChar(name[d])
    ensures !CiStartsAt(text, i, name)
  {
    CiStartsAtChars(text, i, name);
  }

  /** The opening `=== ` of a header line. */
  lemma HeaderOpening(text: string, o: nat, key: string)
    requires StartsAt(text, o, Header(key))
    ensures o + |key| + 9 <= |text| && StartsAt(text, o, "===") && IsSpace(text[o + 3])
  {
    HeaderChars(text, o, key);
    assert text[o..o + 3] == "===";
  }

  /** Character `d` of the name in a header line. */
  lemma HeaderKeyChar(text: string, o: nat, key: string, d: nat)
    requires StartsAt(text, o, Header(key)) && d < |key|
    ensures o + 4 + d < |text| && text[o + 4 + d] == key[d]
  {
    HeaderChars(text, o, key);
  }

  /** Searching for another file's name, the pattern does not match at a block's header. */
  lemma NoSectionAtOpening(text: string, o: nat, key: string, v: string, last: bool, name: string)
    requires BlockAt(text, o, key, v, last) && KeyChars(key) && CiDiffer(key, name)
    ensures SectionAt(text, o, name).None?
  {
    HeaderOpening(text, o, key);
    HeaderKeyChar(text, o, key, 0);
    assert SpaceRunEnd(text, o + 3) == o + 4 by {
      assert SpaceRunEnd(text, o + 4) == o + 4;
    }
    var d :| 0 <= d < |key| && d < |name| && LowerChar(key[d]) != LowerChar(name[d]);
    HeaderKeyChar(text, o, key, d);
    CiMismatch(text, o + 4, name, d);
    assert SectionNameAt(text, o + 4, name).None?;
  }

  /** The blank line and the opening of the next header, character by character. */
  lemma TrailerChars(text: string, hi: nat)
    requires StartsAt(text, hi, "\n\n=== ")
    ensures hi + 6 <= |text|
    ensures text[hi] == '\n' && text[hi + 1] == '\n' && text[hi + 2] == '=' && text[hi + 3] == '='
    ensures text[hi + 4] == '=' && text[hi + 5] == ' '
  {
    forall d | 0 <= d < 6 ensures text[hi + d] == "\n\n=== "[d] {
      assert text[hi + d] == text[hi..hi + 6][d];
    }
  }

  /** What follows a block's contents: the end of the text, or the blank line before the next header. */
  predicate Trailer(text: string, hi: nat, last: bool) {
    if last then hi == |text| else StartsAt(text, hi, "\n\n=== ")
  }

  /** Empty contents followed by the next header: the spaces run up to its `=`, and no name starts there. */
  lemma NoSectionNameAtBlank(text: string, hi: nat, name: string)
    requires StartsAt(text, hi, "\n\n=== ") && KeyChars(name)
    ensures SectionNameAt(text, SpaceRunEnd(text, hi), name).None?
  {
    TrailerChars(text, hi);
    assert SpaceRunEnd(text, hi + 2) == hi + 2;
    assert SpaceRunEnd(text, hi) == hi + 2;
    CiMismatch(text, hi + 2, name, 0);
  }

  /** A name found at the start of non-empty clean contents is not followed by `===` and a newline. */
  lemma NoSectionNameInText(text: string, s: nat, v: string, last: bool, name: string)
    requires StartsAt(text, s, v) && Trailer(text, s + |v|, last) && Clean(v) && v != [] && KeyChars(name)
    ensures SectionNameAt(text, s, name).None?
  {
    var hi := s + |v|;
    if !last {
      TrailerChars(text, hi);
    }
    if CiStartsAt(text, s, name) {
      NameInContents(text, s, v, name);
      var b := SpaceRunEnd(text, s + |name|);
      StartsAtPrefix(text, b, "===\n", 3);
      if b < hi {
        NoRunIn(text, s, v, b, '=');
      } else if !last {
        assert b == hi + 2;
        assert text[b + 3] != '\n';
      }
      assert !StartsAt(text, b, "===\n");
    }
  }

  /** After the closing `===` of a header the name of no file follows in a way the pattern accepts. */
  lemma NoSectionNameInContents(text: string, o: nat, key: string, v: string, last: bool, name: string)
    requires BlockAt(text, o, key, v, last) && Clean(v) && KeyChars(name)
    ensures SectionNameAt(text, SpaceRunEnd(text, o + |key| + 9), name).None?
  {
    var s := o + |key| + 9;
    if v == [] {
      if !last {
        NoSectionNameAtBlank(text, s, name);
      }
    } else {
      assert text[s] == v[0] by {
        assert text[s..s + |v|][0] == v[0];
      }
      assert SpaceRunEnd(text, s) == s;
      NoSectionNameInText(text, s, v, last, name);
    }
  }

  /** The newline that ends a header line. */
  lemma HeaderNewline(text: string, o: nat, key: string)
    requires StartsAt(text, o, Header(key))
    ensures o + |key| + 9 <= |text| && text[o + |key| + 8] == '\n'
  {
    HeaderChars(text, o, key);
  }

  lemma NoSectionAtClosing(text: string, o: nat, key: string, v: string, last: bool, name: string)
    requires BlockAt(text, o, key, v, last) && Clean(v) && KeyChars(name)
    ensures SectionAt(text, o + |key| + 5, name).None?
  {
    HeaderNewline(text, o, key);
    var c := o + |key| + 5;
    var s := o + |key| + 9;
    assert SpaceRunEnd(text, c + 3) == SpaceRunEnd(text, s);
    NoSectionNameInContents(text, o, key, v, last, name);
  }

  /** Inside a block only the two `===` of its header start a run of three `=`. */
  lemma OnlyHeaderRuns(text: string, o: nat, key: string, v: string, last: bool, k: nat)
    requires BlockAt(text, o, key, v, last) && KeyChars(key) && Clean(v)
    requires o < k < o + |key| + 9 + |v| + (if last then 0 else 2) && k != o + |key| + 5
    ensures !StartsAt(text, k, "===")
  {
    HeaderChars(text, o, key);
    var c := o + |key| + 5;
    var s := c + 4;
    var hi := s + |v|;
    if !last {
      TrailerChars(text, hi);
    }
    if k + 3 <= |text| {
      if k <= o + 3 {
        assert text[k..k + 3][o + 3 - k] == ' ';
      } else if k < c {
        assert text[k..k + 3][0] == text[k];
        if k < o + 4 + |key| {
          assert text[k] == key[k - o - 4];
        }
      } else if k < s {
        assert text[k..k + 3][c + 3 - k] == '\n';
      } else if k < hi {
        NoRunIn(text, s, v, k, '=');
      } else if !last {
        assert text[k..k + 3][0] == '\n';
      }
    }
  }

  /** Searching for another file's name, the pattern matches nowhere in a block that is not the last. */
  lemma NoSectionInBlock(text: string, o: nat, key: string, v: string, name: string)
    requires BlockAt(text, o, key, v, false) && KeyChars(key) && KeyChars(name) && Clean(v)
    requires CiDiffer(key, name)
    ensures NoMatchIn(text, o, o + |key| + |v| + 11, Section(name))
  {
    forall k: nat | o <= k < o + |key| + |v| + 11 ensures MatchAt(text, k, Section(name)).None? {
      if k == o {
        NoSectionAtOpening(text, o, key, v, false, name);
      } else if k == o + |key| + 5 {
        NoSectionAtClosing(text, o, key, v, false, name);
      } else {
        OnlyHeaderRuns(text, o, key, v, false, k);
      }
    }
  }

  /** Nothing matches after the header of an empty last file. */
  lemma NoSectionAfterEmpty(text: string, o: nat, key: string, name: string)
    requires BlockAt(text, o, key, [], true) && KeyChars(key) && KeyChars(name)
    ensures NoMatchFrom(text, o + 1, Section(name))
  {
    forall k: nat | o + 1 <= k ensures MatchAt(text, k, Section(name)).None? {
      if k == o + |key| + 5 {
        NoSectionAtClosing(text, o, key, [], true, name);
      } else if k < o + |key| + 9 {
        OnlyHeaderRuns(text, o, key, [], true, k);
      }
    }
  }

  /** The first place of a terminator is the one before which it never occurs. */
  lemma EndFromIs(text: string, j: nat, e: nat, term: Terminator)
    requires j <= e <= |text| && EndsAt(text, e, term)
    requires forall k :: j <= k < e ==> !EndsAt(text, k, term)
    ensures EndFrom(text, j, term) == Some(e)
  {
  }

  /** Inside a block's group, the lookahead `(?=\n===|$)` does not hold. */
  lemma NoSectionEndInside(text: string, s: nat, v: string, last: bool, k: nat)
    requires StartsAt(text, s, v) && Trailer(text, s + |v|, last) && Clean(v)
    requires s + 1 <= k < s + |v| + (if last then 0 else 1)
    ensures !EndsAt(text, k, SectionEnd)
  {
    var hi := s + |v|;
    if !last {
      TrailerChars(text, hi);
    }
    if StartsAt(text, k, "\n===") {
      StartsAtTail(text, k, "\n===");
      assert StartsAt(text, k + 1, "===");
      StartsAtHead(text, k + 1, "===");
      if k + 1 < hi {
        NoRunIn(text, s, v, k + 1, '=');
      }
      assert false;
    }
    if last && k + 1 == |text| {
      assert text[k] == v[|v| - 1] by {
        assert text[s..s + |v|][|v| - 1] == v[|v| - 1];
      }
    }
  }

  /** Where the group of a block's own section ends: after the newline that follows its
      contents, or at the end of the text for the last file. An empty last file has no group. */
  lemma GroupInBlock(text: string, s: nat, v: string, last: bool)
    requires StartsAt(text, s, v) && Trailer(text, s + |v|, last) && Clean(v)
    ensures last && v == [] ==> LazyEnd(text, s, SectionEnd).None?
    ensures !(last && v == []) ==> LazyEnd(text, s, SectionEnd) == Some(s + |v| + if last then 0 else 1)
  {
    var hi := s + |v|;
    if !last {
      TrailerChars(text, hi);
    }
    if !(last && v == []) {
      var e := hi + if last then 0 else 1;
      forall k | s + 1 <= k < e ensures !EndsAt(text, k, SectionEnd) {
        NoSectionEndInside(text, s, v, last, k);
      }
      if !last {
        assert StartsAt(text, e, "\n===") by {
          assert text[e..e + 4] == "\n===";
        }
      }
      EndFromIs(text, s + 1, e, SectionEnd);
    }
  }

  /** At a header, the pattern passes `===` and the space before the name. */
  lemma SectionOpensAt(text: string, o: nat, key: string)
    requires StartsAt(text, o, Header(key)) && KeyChars(key)
    ensures SectionAt(text, o, key) == SectionNameAt(text, o + 4, key)
  {
    HeaderChars(text, o, key);
    assert StartsAt(text, o, "===") by {
      assert text[o..o + 3] == "===";
    }
    assert SpaceRunEnd(text, o + 4) == o + 4;
  }

  /** At a header, the pattern passes the name itself and the space after it. */
  lemma SectionNamedAt(text: string, o: nat, key: string)
    requires StartsAt(text, o, Header(key)) && KeyChars(key)
    ensures SectionNameAt(text, o + 4, key) == SectionBodyAt(text, o + |key| + 5)
  {
    HeaderNameMatches(text, o, key);
    HeaderSpaceAfterName(text, o, key);
  }

  /** The name in a header line matches the name searched for. */
  lemma HeaderNameMatches(text: string, o: nat, key: string)
    requires StartsAt(text, o, Header(key))
    ensures CiStartsAt(text, o + 4, key)
  {
    HeaderChars(text, o, key);
    CiStartsAtChars(text, o + 4, key);
  }

  /** After the name of a header line, the run of spaces is the one space before `===`. */
  lemma HeaderSpaceAfterName(text: string, o: nat, key: string)
    requires StartsAt(text, o, Header(key))
    ensures o + |key| + 5 <= |text| && SpaceRunEnd(text, o + 4 + |key|) == o + |key| + 5
  {
    HeaderChars(text, o, key);
    var c := o + |key| + 5;
    assert SpaceRunEnd(text, c) == c;
  }

  /** At a header, the pattern passes the closing `===` and the newline. */
  lemma SectionBodyStarts(text: string, o: nat, key: string)
    requires StartsAt(text, o, Header(key))
    ensures SectionBodyAt(text, o + |key| + 5) == Group(text, o + |key| + 9, SectionEnd)
  {
    var c := o + |key| + 5;
    assert text[c..c + 4] == Header(key)[|key| + 5..] by {
      assert text[c..c + 4] == text[o..o + |key| + 9][|key| + 5..];
    }
  }

  lemma GroupIs(text: string, s: nat, term: Terminator, e: nat)
    requires LazyEnd(text, s, term) == Some(e)
    ensures Group(text, s, term) == Some(Capture(s, e))
  {
  }

  /** At a header of the name searched for, the pattern reaches its group right after the header. */
  lemma SectionAtHeader(text: string, o: nat, key: string)
    requires StartsAt(text, o, Header(key)) && KeyChars(key)
    ensures SectionAt(text, o, key) == Group(text, o + |key| + 9, SectionEnd)
    ensures o + |key| + 9 <= |text|
  {
    SectionOpensAt(text, o, key);
    SectionNamedAt(text, o, key);
    SectionBodyStarts(text, o, key);
  }

  /** A block is its header, its contents and what follows them. */
  lemma BlockParts(text: string, o: nat, key: string, v: string, last: bool)
    requires BlockAt(text, o, key, v, last)
    ensures StartsAt(text, o, Header(key)) && StartsAt(text, o + |key| + 9, v)
    ensures Trailer(text, o + |key| + 9 + |v|, last)
  {
  }

  /** The group the section pattern takes from the start of a block's contents. */
  lemma GroupOfBlock(text: string, s: nat, v: string, last: bool)
    requires StartsAt(text, s, v) && Trailer(text, s + |v|, last) && Clean(v)
    ensures last && v == [] ==> Group(text, s, SectionEnd).None?
    ensures !(last && v == []) ==> Group(text, s, SectionEnd) == Some(Capture(s, s + |v| + if last then 0 else 1))
  {
    GroupInBlock(text, s, v, last);
    if !(last && v == []) {
      GroupIs(text, s, SectionEnd, s + |v| + if last then 0 else 1);
    }
  }

  /** What the section search for file `keys[m]` captures in text laid out from `o`. */
  ghost predicate FoundSection(text: string, r: Option<Match>, v: string, last: bool)
  {
    if last && v == [] then r.None?
    else r.Some? && r.value.group.start <= r.value.group.end <= |text|
         && GroupText(text, r.value.group) == v + (if last then "" else "\n")
  }

  /** A search from `i` stops at `i` when the pattern matches there. */
  lemma SearchHere(text: string, i: nat, name: string, c: Capture)
    requires SectionAt(text, i, name) == Some(c)
    ensures SearchFrom(text, i, Section(name)) == Some(Match(i, c))
  {
    assert MatchAt(text, i, Section(name)) == Some(c);
  }

  /** The text between the header and the end of the group: the contents, and the newline
      after them when another file follows. */
  lemma GroupTextInBlock(text: string, s: nat, v: string, last: bool)
    requires StartsAt(text, s, v) && Trailer(text, s + |v|, last)
    ensures s + |v| + (if last then 0 else 1) <= |text|
    ensures text[s..s + |v| + if last then 0 else 1] == v + (if last then "" else "\n")
  {
    assert text[s..s + |v|] == v;
    if !last {
      TrailerChars(text, s + |v|);
      assert text[s..s + |v| + 1] == text[s..s + |v|] + [text[s + |v|]];
    }
  }

  /** The group the section pattern takes after a block's header. */
  lemma GroupOfBlockAt(text: string, o: nat, key: string, v: string, last: bool)
    requires BlockAt(text, o, key, v, last) && Clean(v)
    ensures Group(text, o + |key| + 9, SectionEnd) ==
              if last && v == [] then None else Some(Capture(o + |key| + 9, o + |key| + 9 + |v| + if last then 0 else 1))
  {
    BlockParts(text, o, key, v, last);
    GroupOfBlock(text, o + |key| + 9, v, last);
  }

  lemma SectionAtHeaderIs(text: string, o: nat, key: string, c: Option<Capture>)
    requires StartsAt(text, o, Header(key)) && KeyChars(key)
    requires Group(text, o + |key| + 9, SectionEnd) == c
    ensures SectionAt(text, o, key) == c
  {
    SectionAtHeader(text, o, key);
  }

  lemma SectionAtBlockHeader(text: string, o: nat, key: string, v: string, last: bool)
    requires BlockAt(text, o, key, v, last) && KeyChars(key)
    requires Group(text, o + |key| + 9, SectionEnd) ==
               if last && v == [] then None else Some(Capture(o + |key| + 9, o + |key| + 9 + |v| + if last then 0 else 1))
    ensures SectionAt(text, o, key) ==
              if last && v == [] then None else Some(Capture(o + |key| + 9, o + |key| + 9 + |v| + if last then 0 else 1))
  {
    BlockParts(text, o, key, v, last);
    var s := o + |key| + 9;
    SectionAtHeaderIs(text, o, key, if last && v == [] then None else Some(Capture(s, s + |v| + if last then 0 else 1)));
  }

  /** Searching for a block's own name, the pattern matches at its header, and the group is
      the block's contents with the newline after them (or to the end of the text). An
      empty last file has no group. */
  lemma SectionOwnBlock(text: string, o: nat, key: string, v: string, last: bool)
    requires BlockAt(text, o, key, v, last) && KeyChars(key) && Clean(v)
    ensures SectionAt(text, o, key) ==
              if last && v == [] then None else Some(Capture(o + |key| + 9, o + |key| + 9 + |v| + if last then 0 else 1))
  {
    GroupOfBlockAt(text, o, key, v, last);
    SectionAtBlockHeader(text, o, key, v, last);
  }

  /** The search for a block's own name from the block on finds that block's group, or
      nothing for an empty last file. */
  lemma OwnGroup(text: string, o: nat, key: string, v: string, last: bool)
    requires BlockAt(text, o, key, v, last) && KeyChars(key) && Clean(v)
    ensures FoundSection(text, SearchFrom(text, o, Section(key)), v, last)
  {
    SectionOwnBlock(text, o, key, v, last);
    if last && v == [] {
      OwnGroupEmpty(text, o, key);
    } else {
      OwnGroupFound(text, o, key, v, last);
    }
  }

  lemma OwnGroupEmpty(text: string, o: nat, key: string)
    requires BlockAt(text, o, key, [], true) && KeyChars(key) && SectionAt(text, o, key).None?
    ensures SearchFrom(text, o, Section(key)).None?
  {
    NoSectionAfterEmpty(text, o, key, key);
    SearchNone(text, o + 1, Section(key));
    assert MatchAt(text, o, Section(key)).None?;
  }

  lemma OwnGroupFound(text: string, o: nat, key: string, v: string, last: bool)
    requires BlockAt(text, o, key, v, last) && !(last && v == [])
    requires SectionAt(text, o, key) == Some(Capture(o + |key| + 9, o + |key| + 9 + |v| + if last then 0 else 1))
    ensures FoundSection(text, SearchFrom(text, o, Section(key)), v, last)
  {
    var s := o + |key| + 9;
    var e := s + |v| + if last then 0 else 1;
    SearchHere(text, o, key, Capture(s, e));
    GroupTextInBlock(text, s, v, last);
  }

  /** Every file's name is well-formed, the names differ pairwise and the contents are clean. */
  ghost predicate GoodLayout(keys: seq<string>, values: seq<string>) {
    |keys| == |values| && GoodKeys(keys) && forall k :: 0 <= k < |values| ==> Clean(values[k])
  }

  lemma GoodLayoutTail(keys: seq<string>, values: seq<string>)
    requires GoodLayout(keys, values) && |keys| > 1
    ensures GoodLayout(keys[1..], values[1..])
  {
    forall i, j | 0 <= i < |keys| - 1 && 0 <= j < |keys| - 1 && i != j
      ensures CiDiffer(keys[1..][i], keys[1..][j])
    {
      assert keys[1..][i] == keys[i + 1] && keys[1..][j] == keys[j + 1];
    }
  }

  /** Where block `m` of a layout from `o` starts. */
  function BlockStart(keys: seq<string>, values: seq<string>, o: nat, m: nat): nat
    requires m <= |keys| == |values|
    decreases m
  {
    if m == 0 then o else BlockStart(keys[1..], values[1..], o + |keys[0]| + |values[0]| + 11, m - 1)
  }

  /** Block `m` of a layout is where `BlockStart` puts it. */
  lemma {:induction false} LaidOutBlock(text: string, o: nat, keys: seq<string>, values: seq<string>, m: nat)
    requires LaidOut(text, o, keys, values) && m < |keys|
    ensures BlockAt(text, BlockStart(keys, values, o, m), keys[m], values[m], m == |keys| - 1)
    decreases m
  {
    if m > 0 {
      LaidOutBlock(text, o + |keys[0]| + |values[0]| + 11, keys[1..], values[1..], m - 1);
      assert keys[1..][m - 1] == keys[m] && values[1..][m - 1] == values[m];
    }
  }

  /** Searching for the name of a later file, the pattern matches nowhere in the first block. */
  lemma NoMatchInFirst(text: string, o: nat, keys: seq<string>, values: seq<string>, m: nat)
    requires LaidOut(text, o, keys, values) && GoodLayout(keys, values) && 0 < m < |keys|
    ensures NoMatchIn(text, o, o + |keys[0]| + |values[0]| + 11, Section(keys[m]))
  {
    assert CiDiffer(keys[0], keys[m]);
    NoSectionInBlock(text, o, keys[0], values[0], keys[m]);
  }

  /** Searching for the name of file `m`, the pattern matches nowhere in the blocks before it. */
  lemma {:induction false} NoMatchBefore(text: string, o: nat, keys: seq<string>, values: seq<string>, m: nat)
    requires LaidOut(text, o, keys, values) && GoodLayout(keys, values) && m < |keys|
    ensures o <= BlockStart(keys, values, o, m)
    ensures NoMatchIn(text, o, BlockStart(keys, values, o, m), Section(keys[m]))
    decreases m
  {
    if m > 0 {
      var o' := o + |keys[0]| + |values[0]| + 11;
      var keys', values' := keys[1..], values[1..];
      assert keys'[m - 1] == keys[m];
      NoMatchInFirst(text, o, keys, values, m);
      GoodLayoutTail(keys, values);
      NoMatchBefore(text, o', keys', values', m - 1);
      NoMatchJoin(text, o, o', BlockStart(keys, values, o, m), Section(keys[m]));
    }
  }

  /** Past the blocks that do not match, the search finds the block of the name searched for. */
  lemma FoundAfterSkip(text: string, o: nat, q: nat, key: string, v: string, last: bool)
    requires o <= q && NoMatchIn(text, o, q, Section(key))
    requires BlockAt(text, q, key, v, last) && KeyChars(key) && Clean(v)
    ensures FoundSection(text, SearchFrom(text, o, Section(key)), v, last)
  {
    SearchSkip(text, o, q, Section(key));
    OwnGroup(text, q, key, v, last);
  }

  /** The section search for the name of file `m` of a layout finds that file's block:
      the blocks before it do not match, and its own block yields its contents. */
  lemma SectionInLayout(text: string, o: nat, keys: seq<string>, values: seq<string>, m: nat)
    requires LaidOut(text, o, keys, values) && GoodLayout(keys, values) && m < |keys|
    ensures FoundSection(text, SearchFrom(text, o, Section(keys[m])), values[m], m == |keys| - 1)
  {
    LaidOutBlock(text, o, keys, values, m);
    NoMatchBefore(text, o, keys, values, m);
    FoundAfterSkip(text, o, BlockStart(keys, values, o, m), keys[m], values[m], m == |keys| - 1);
  }

  /** No three backquotes in a row: the text holds no code fence. */
  predicate NoFenceMark(s: string) {
    forall i :: 0 <= i && i + 2 < |s| ==> !(s[i] == '`' && s[i + 1] == '`' && s[i + 2] == '`')
  }

  lemma CleanNoFence(v: string)
    requires !Contains(v, "```")
    ensures NoFenceMark(v)
  {
    ContainsIff(v, "```");
    forall i | 0 <= i && i + 2 < |v| ensures !(v[i] == '`' && v[i + 1] == '`' && v[i + 2] == '`') {
      if v[i] == '`' && v[i + 1] == '`' && v[i + 2] == '`' {
        assert StartsAt(v, i, "```");
      }
    }
  }

  /** Joining two texts without a fence makes none when one side of the seam is not a backquote. */
  lemma NoFenceConcat(a: string, b: string)
    requires NoFenceMark(a) && NoFenceMark(b)
    requires a == [] || b == [] || a[|a| - 1] != '`' || b[0] != '`'
    ensures NoFenceMark(a + b)
  {
    var t := a + b;
    forall i | 0 <= i && i + 2 < |t| ensures !(t[i] == '`' && t[i + 1] == '`' && t[i + 2] == '`') {
      if i + 2 < |a| {
        assert t[i] == a[i] && t[i + 1] == a[i + 1] && t[i + 2] == a[i + 2];
      } else if i >= |a| {
        assert t[i] == b[i - |a|] && t[i + 1] == b[i + 1 - |a|] && t[i + 2] == b[i + 2 - |a|];
      } else {
        assert t[|a| - 1] == a[|a| - 1] && t[|a|] == b[0];
      }
    }
  }

  lemma HeaderNoFence(key: string)
    requires KeyChars(key)
    ensures NoFenceMark(Header(key)) && Header(key)[|key| + 8] == '\n'
  {
    var h := Header(key);
    forall i | 0 <= i < |h| ensures h[i] != '`' {
      if 4 <= i < 4 + |key| {
        assert h[i] == key[i - 4];
      }
    }
  }

  /** The display text of files whose names and contents hold no fence holds none either. */
  lemma {:induction false} LayoutNoFence(keys: seq<string>, values: seq<string>)
    requires |keys| == |values| && keys != []
    requires forall k :: 0 <= k < |keys| ==> KeyChars(keys[k]) && NoFenceMark(values[k])
    ensures NoFenceMark(Layout(keys, values))
    decreases |keys|
  {
    HeaderNoFence(keys[0]);
    NoFenceConcat(Header(keys[0]), values[0]);
    if |keys| > 1 {
      var p := Header(keys[0]) + values[0];
      assert NoFenceMark("\n\n");
      NoFenceConcat(p, "\n\n");
      LayoutNoFence(keys[1..], values[1..]);
      var r := Layout(keys[1..], values[1..]);
      assert r[0] == '=';
      NoFenceConcat(p + "\n\n", r);
    }
  }

  /** Letters compared without case, only a backquote matches a backquote. */
  lemma CiTicks(text: string, k: nat, lang: string)
    ensures CiStartsAt(text, k, "```" + lang) ==>
      k + 2 < |text| && text[k] == '`' && text[k + 1] == '`' && text[k + 2] == '`'
  {
    var pattern := "```" + lang;
    if CiStartsAt(text, k, pattern) {
      CiStartsAtChars(text, k, pattern);
      assert pattern[0] == '`' && pattern[1] == '`' && pattern[2] == '`';
      assert LowerChar(text[k + 0]) == LowerChar(pattern[0]);
      assert LowerChar(text[k + 1]) == LowerChar(pattern[1]);
      assert LowerChar(text[k + 2]) == LowerChar(pattern[2]);
    }
  }

  /** In a text without a fence no code block of any language is found. */
  lemma NoLanguageBlock(text: string, lang: string)
    requires NoFenceMark(text)
    ensures Search(text, LanguageBlock(lang)).None?
  {
    forall k: nat | 0 <= k ensures MatchAt(text, k, LanguageBlock(lang)).None? {
      CiTicks(text, k, lang);
    }
    SearchNone(text, 0, LanguageBlock(lang));
  }
}
