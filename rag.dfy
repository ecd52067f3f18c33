/**
 * Textbook ingestion: `chunk_text`, the word-window splitter, and the part of
 * `add_pdf_file` that picks the pages by file extension and turns every chunk
 * of every page into a record. Reading the file, the PDF extraction, the
 * embeddings and the vector store are outside the model: the pages a PDF
 * yields and the text a `.txt` file holds are parameters.
 */
module Rag {
  import opened Wrappers
  import opened PyStr

  /** The exceptions the modelled code raises: both are `ValueError`s. */
  datatype Error = ValueError(message: string)

  const DefaultChunkSize := 500
  const DefaultSource := "PDF"

  /** `range(0, n, 0)` refuses a zero step. */
  const ZeroStepMessage := "range() arg 3 must not be zero"
  const UnsupportedFileMessage := "Unsupported file type. Use PDF or TXT."

  function Min(a: int, b: int): int {
    if a <= b then a else b
  }

  // ---------------------------------------------------------------- chunk_text

  /** `words[i:i+n]` for `i` in `range(0, len(words), n)`: consecutive windows of `n` words, the last one possibly shorter. */
  function Windows(words: seq<string>, n: nat): seq<seq<string>>
    requires n > 0
    decreases |words|
  {
    if words == [] then []
    else if |words| <= n then [words]
    else [words[..n]] + Windows(words[n..], n)
  }

  /** Each window joined by single spaces. */
  function JoinEach(ws: seq<seq<string>>): seq<string> {
    seq(|ws|, k requires 0 <= k < |ws| => Join(ws[k], " "))
  }

  /** The words of each chunk, as `chunk.split()` gives them. */
  function WordsEach(cs: seq<string>): seq<seq<string>> {
    seq(|cs|, k requires 0 <= k < |cs| => Words(cs[k]))
  }

  /** The concatenation of a sequence of word lists. */
  function Flatten(ws: seq<seq<string>>): seq<string> {
    if ws == [] then [] else ws[0] + Flatten(ws[1..])
  }

  /** What `chunk_text(text, n)` returns for a positive `n`. */
  function Chunks(text: string, n: nat): seq<string>
    requires n > 0
  {
    JoinEach(Windows(Words(text), n))
  }

  /** One turn of the loop: the window at `i` comes first, the windows of what follows it after. */
  lemma WindowsStep(words: seq<string>, n: nat, i: nat)
    requires n > 0 && i < |words|
    ensures Windows(words[i..], n) == [words[i..Min(i + n, |words|)]] + Windows(words[Min(i + n, |words|)..], n)
  {
    var w := words[i..];
    if |w| <= n {
      assert words[i..|words|] == w;
      assert words[|words|..] == [];
    } else {
      assert w[..n] == words[i..i + n];
      assert w[n..] == words[i + n..];
    }
  }

  lemma JoinEachAppend(a: seq<seq<string>>, b: seq<seq<string>>)
    ensures JoinEach(a + b) == JoinEach(a) + JoinEach(b)
  {
    var l, r := JoinEach(a + b), JoinEach(a) + JoinEach(b);
    assert |l| == |r|;
    forall k | 0 <= k < |l| ensures l[k] == r[k] {
      if k < |a| {
        assert (a + b)[k] == a[k];
      } else {
        assert (a + b)[k] == b[k - |a|];
      }
    }
  }

  /** The chunks of a word list. */
  function WordChunks(words: seq<string>, n: nat): seq<string>
    requires n > 0
  {
    JoinEach(Windows(words, n))
  }

  /** One turn of the loop: the chunk of the window at `i`, then the chunks of what follows it. */
  lemma WordChunksStep(words: seq<string>, n: nat, i: nat)
    requires n > 0 && i < |words|
    ensures WordChunks(words[i..], n) ==
      [Join(words[i..Min(i + n, |words|)], " ")] + WordChunks(words[Min(i + n, |words|)..], n)
  {
    WindowsStep(words, n, i);
    JoinEachAppend([words[i..Min(i + n, |words|)]], Windows(words[Min(i + n, |words|)..], n));
  }

  /**
   * `chunk_text(text, chunkSize)`. A zero size makes `range` raise; a
   * negative one makes the range empty, so no chunk is produced.
   */
  method ChunkText(text: string, chunkSize: int) returns (r: Result<seq<string>, Error>)
    ensures chunkSize == 0 ==> r == Failure(ValueError(ZeroStepMessage))
    ensures chunkSize < 0 ==> r == Success([])
    ensures chunkSize > 0 ==> r == Success(Chunks(text, chunkSize))
  {
    if chunkSize == 0 {
      return Failure(ValueError(ZeroStepMessage));
    }
    var words := Words(text);
    var chunks: seq<string> := [];
    if chunkSize < 0 {
      return Success(chunks);
    }
    var n: nat := chunkSize;
    var i := 0;
    assert words[0..] == words;
    while i < |words|
      invariant 0 <= i
      invariant WordChunks(words, n) == chunks + WordChunks(words[Min(i, |words|)..], n)
      decreases |words| - i
    {
      var j := Min(i + n, |words|);
      var chunk := Join(words[i..j], " ");
      var later := WordChunks(words[j..], n);
      WordChunksStep(words, n, i);
      assert chunks + ([chunk] + later) == (chunks + [chunk]) + later;
      chunks := chunks + [chunk];
      i := i + n;
    }
    assert words[Min(i, |words|)..] == [];
    assert chunks + WordChunks([], n) == chunks;
    return Success(chunks);
  }

  /** Windows cover the words in order, hold 1 to `n` words each, exactly `n` all but the last. */
  lemma {:induction false} WindowsShape(words: seq<string>, n: nat)
    requires n > 0
    ensures Flatten(Windows(words, n)) == words
    ensures forall k :: 0 <= k < |Windows(words, n)| ==> 1 <= |Windows(words, n)[k]| <= n
    ensures forall k :: 0 <= k < |Windows(words, n)| - 1 ==> |Windows(words, n)[k]| == n
    decreases |words|
  {
    if |words| > n {
      var w := Windows(words, n);
      var rest := Windows(words[n..], n);
      WindowsShape(words[n..], n);
      assert w == [words[..n]] + rest;
      assert w[1..] == rest;
      assert words == words[..n] + words[n..];
      forall k | 0 <= k < |w| ensures 1 <= |w[k]| <= n && (k < |w| - 1 ==> |w[k]| == n) {
        if k > 0 {
          assert w[k] == rest[k - 1];
        }
      }
    } else if words != [] {
      assert Windows(words, n) == [words];
      assert Flatten([words]) == words + Flatten([]);
    }
  }

  /** Every window of a word list is a word list. */
  lemma {:induction false} WindowsOfWordList(words: seq<string>, n: nat)
    requires n > 0 && IsWordList(words)
    ensures forall k :: 0 <= k < |Windows(words, n)| ==> IsWordList(Windows(words, n)[k])
    decreases |words|
  {
    if |words| > n {
      var w := Windows(words, n);
      var rest := Windows(words[n..], n);
      assert IsWordList(words[n..]) by {
        forall k | 0 <= k < |words| - n ensures words[n..][k] != [] && NoSpace(words[n..][k]) {
          assert words[n..][k] == words[n + k];
        }
      }
      WindowsOfWordList(words[n..], n);
      assert w == [words[..n]] + rest;
      forall k | 0 <= k < |w| ensures IsWordList(w[k]) {
        if k > 0 {
          assert w[k] == rest[k - 1];
        } else {
          forall j | 0 <= j < n ensures words[..n][j] != [] && NoSpace(words[..n][j]) {
            assert words[..n][j] == words[j];
          }
        }
      }
    }
  }

  lemma {:induction false} MulAtLeast(n: int, k: int)
    requires n > 0 && k >= 1
    ensures n * k >= n
    decreases k
  {
    if k > 1 {
      MulAtLeast(n, k - 1);
      assert n * k == n * (k - 1) + n;
    }
  }

  /** `q` is the quotient of `y` by `n` when `y` lies in `q`'s band. */
  lemma DivUnique(y: int, n: int, q: int)
    requires n > 0 && n * q <= y < n * q + n
    ensures y / n == q
  {
    var d, r := y / n, y % n;
    assert y == n * d + r && 0 <= r < n;
    if d > q {
      MulAtLeast(n, d - q);
    } else if d < q {
      MulAtLeast(n, q - d);
    }
  }

  /** There are `len(words) / n` windows, rounded up, and none for no words. */
  lemma {:induction false} WindowsCount(words: seq<string>, n: nat)
    requires n > 0
    ensures |Windows(words, n)| == (|words| + n - 1) / n
    decreases |words|
  {
    if |words| > n {
      WindowsCount(words[n..], n);
      CeilStep(|words|, n);
    } else if words != [] {
      DivUnique(|words| + n - 1, n, 1);
    }
  }

  /** Taking `n` off a count of more than `n` takes one off its quotient by `n`, rounded up. */
  lemma CeilStep(count: int, n: int)
    requires count > n > 0
    ensures (count + n - 1) / n == (count - n + n - 1) / n + 1
  {
    var y := count - 1;
    var q := y / n;
    assert y == n * q + y % n && 0 <= y % n < n;
    assert n * (q + 1) == n * q + n;
    DivUnique(y + n, n, q + 1);
  }

  /** The words of each chunk are its window: splitting a chunk undoes the join. */
  lemma ChunkWordsAreWindows(text: string, n: nat)
    requires n > 0
    ensures WordsEach(Chunks(text, n)) == Windows(Words(text), n)
  {
    var w := Windows(Words(text), n);
    WindowsOfWordList(Words(text), n);
    forall k | 0 <= k < |w| ensures Words(Join(w[k], " ")) == w[k] {
      WordsOfJoin(w[k]);
    }
  }

  /** Joining the chunks' words in order gives back exactly `text.split()`. */
  lemma ChunksKeepWords(text: string, n: nat)
    requires n > 0
    ensures Flatten(WordsEach(Chunks(text, n))) == Words(text)
  {
    ChunkWordsAreWindows(text, n);
    WindowsShape(Words(text), n);
  }

  /** Every chunk has between 1 and `n` words, and every chunk but the last exactly `n`. */
  lemma ChunkSizes(text: string, n: nat)
    requires n > 0
    ensures forall k :: 0 <= k < |Chunks(text, n)| ==> 1 <= |Words(Chunks(text, n)[k])| <= n
    ensures forall k :: 0 <= k < |Chunks(text, n)| - 1 ==> |Words(Chunks(text, n)[k])| == n
  {
    ChunkWordsAreWindows(text, n);
    WindowsShape(Words(text), n);
    var c, w := Chunks(text, n), WordsEach(Chunks(text, n));
    assert forall k :: 0 <= k < |c| ==> Words(c[k]) == w[k];
  }

  /** There are `len(text.split()) / n` chunks, rounded up; blank text gives none. */
  lemma ChunkCount(text: string, n: nat)
    requires n > 0
    ensures |Chunks(text, n)| == (|Words(text)| + n - 1) / n
    ensures Chunks(text, n) == [] <==> AllSpace(text)
  {
    WindowsCount(Words(text), n);
    WordsEmptyIffBlank(text);
  }

  /** Each chunk is its words separated by single spaces, with no whitespace at either end. */
  lemma ChunkShape(text: string, n: nat)
    requires n > 0
    ensures forall k :: 0 <= k < |Chunks(text, n)| ==> SingleSpaced(Chunks(text, n)[k])
  {
    var w := Windows(Words(text), n);
    WindowsOfWordList(Words(text), n);
    WindowsShape(Words(text), n);
    forall k | 0 <= k < |w| ensures SingleSpaced(Join(w[k], " ")) {
      JoinIsSingleSpaced(w[k]);
    }
  }

  // ---------------------------------------------------------------- add_pdf_file

  /** The record `add_pdf_file` builds for one chunk. */
  datatype ChunkRecord = ChunkRecord(text: string, book: string, page: int, source: string)

  /** The records of one page, one per chunk of it, in chunk order. */
  function PageRecords(pageText: string, book: string, page: int, source: string): seq<ChunkRecord> {
    var cs := Chunks(pageText, DefaultChunkSize);
    seq(|cs|, k requires 0 <= k < |cs| => ChunkRecord(cs[k], book, page, source))
  }

  /** The records of all pages, page by page, the page at index `i` numbered `i + 1`. */
  function Records(pages: seq<string>, book: string, source: string): seq<ChunkRecord>
    decreases |pages|
  {
    if pages == [] then []
    else Records(pages[..|pages| - 1], book, source) + PageRecords(pages[|pages| - 1], book, |pages|, source)
  }

  /** Removing the last page removes its records and no others. */
  lemma RecordsSnoc(pages: seq<string>, p: nat, book: string, source: string)
    requires p < |pages|
    ensures Records(pages[..p + 1], book, source) ==
      Records(pages[..p], book, source) + PageRecords(pages[p], book, p + 1, source)
  {
    assert pages[..p + 1][..p] == pages[..p];
  }

  /** One pass of the page loop of `add_pdf_file`: the page's chunks, as records, appended one by one. */
  method AppendPage(all: seq<ChunkRecord>, text: string, book: string, page: int, source: string)
    returns (more: seq<ChunkRecord>)
    ensures more == all + PageRecords(text, book, page, source)
  {
    var chunked := ChunkText(text, DefaultChunkSize);
    var cs := chunked.value;
    more := all;
    var c := 0;
    while c < |cs|
      invariant 0 <= c <= |cs|
      invariant more == all + PageRecords(text, book, page, source)[..c]
    {
      more := more + [ChunkRecord(cs[c], book, page, source)];
      c := c + 1;
    }
  }

  /**
   * The chunk-record part of `add_pdf_file(filePath, bookName, source)`.
   * `pdfPages` stands for what the PDF extractor returns and `fileText` for
   * the contents of a text file.
   */
  method AddPdfFile(filePath: string, bookName: string, source: string, pdfPages: seq<string>, fileText: string)
    returns (r: Result<seq<ChunkRecord>, Error>)
    ensures EndsWith(Lower(filePath), ".pdf") ==> r == Success(Records(pdfPages, bookName, source))
    ensures !EndsWith(Lower(filePath), ".pdf") && EndsWith(Lower(filePath), ".txt") ==>
      r == Success(Records([fileText], bookName, source))
    ensures !EndsWith(Lower(filePath), ".pdf") && !EndsWith(Lower(filePath), ".txt") ==>
      r == Failure(ValueError(UnsupportedFileMessage))
  {
    var path := Lower(filePath);
    var pages: seq<string>;
    if EndsWith(path, ".pdf") {
      pages := pdfPages;
    } else if EndsWith(path, ".txt") {
      pages := [fileText];
    } else {
      return Failure(ValueError(UnsupportedFileMessage));
    }
    var all: seq<ChunkRecord> := [];
    var p := 0;
    while p < |pages|
      invariant 0 <= p <= |pages|
      invariant all == Records(pages[..p], bookName, source)
    {
      all := AppendPage(all, pages[p], bookName, p + 1, source);
      RecordsSnoc(pages, p, bookName, source);
      p := p + 1;
    }
    assert pages[..|pages|] == pages;
    return Success(all);
  }

  /** `c` matches the lower-case letter or symbol `l` ignoring ASCII case. */
  predicate FoldedMatch(c: char, l: char) {
    c == l || ('A' <= c <= 'Z' && c as int + 32 == l as int)
  }

  /** `c` matches the lower-case letter or symbol `l` ignoring ASCII case, as `c.lower() == l`. */
  lemma FoldedMatchIsLower(s: string, j: nat, l: char)
    requires j < |s| && !('A' <= l <= 'Z')
    ensures FoldedMatch(s[j], l) <==> Lower(s)[j] == l
  {
    var c, lc := s[j], Lower(s)[j];
    if 'A' <= c <= 'Z' {
      assert lc as int == c as int + 32;
      assert c != l;
      assert lc == l <==> lc as int == l as int;
    } else {
      assert lc == c;
    }
  }

  /** The last characters of `path` spell `ext` ignoring ASCII case. */
  predicate EndsWithFolded(path: string, ext: string) {
    |ext| <= |path| && forall i :: 0 <= i < |ext| ==> FoldedMatch(path[|path| - |ext| + i], ext[i])
  }

  /** `l` ends with `ext` exactly when `path` does ignoring case, given that `l` agrees with `path` character by folded character. */
  lemma EndsWithFoldedIff(l: string, path: string, ext: string)
    requires |l| == |path|
    requires |ext| <= |path| ==> forall i :: 0 <= i < |ext| ==>
      (FoldedMatch(path[|path| - |ext| + i], ext[i]) <==> l[|path| - |ext| + i] == ext[i])
    ensures EndsWith(l, ext) <==> EndsWithFolded(path, ext)
  {
    if |ext| <= |path| {
      var t := l[|l| - |ext|..];
      assert forall i :: 0 <= i < |ext| ==> t[i] == l[|l| - |ext| + i];
    }
  }

  /** `path.lower().endswith(ext)` for a lower-case `ext` compares the last characters of `path` ignoring case. */
  lemma EndsWithIgnoringCase(path: string, ext: string)
    requires forall i :: 0 <= i < |ext| ==> !('A' <= ext[i] <= 'Z')
    ensures EndsWith(Lower(path), ext) <==> EndsWithFolded(path, ext)
  {
    if |ext| <= |path| {
      forall i | 0 <= i < |ext|
        ensures FoldedMatch(path[|path| - |ext| + i], ext[i]) <==> Lower(path)[|path| - |ext| + i] == ext[i]
      {
        FoldedMatchIsLower(path, |path| - |ext| + i, ext[i]);
      }
    }
    EndsWithFoldedIff(Lower(path), path, ext);
  }

  /** `rec` copies `book` and `source`, numbers its page from 1 within `pages` and holds a chunk of that page. */
  ghost predicate FromPages(rec: ChunkRecord, pages: seq<string>, book: string, source: string) {
    && rec.book == book && rec.source == source
    && 1 <= rec.page <= |pages|
    && rec.text in Chunks(pages[rec.page - 1], DefaultChunkSize)
  }

  /** Every record copies the book and the source, numbers its page from 1 and holds a chunk of that page. */
  lemma {:induction false} RecordFields(pages: seq<string>, book: string, source: string)
    ensures forall i :: 0 <= i < |Records(pages, book, source)| ==>
      FromPages(Records(pages, book, source)[i], pages, book, source)
    decreases |pages|
  {
    if pages != [] {
      var m := |pages| - 1;
      var front := pages[..m];
      RecordFields(front, book, source);
      var a, b := Records(front, book, source), PageRecords(pages[m], book, m + 1, source);
      var all := Records(pages, book, source);
      assert all == a + b;
      forall i | 0 <= i < |all| ensures FromPages(all[i], pages, book, source) {
        if i < |a| {
          assert all[i] == a[i];
          assert FromPages(a[i], front, book, source);
          assert front[a[i].page - 1] == pages[a[i].page - 1];
        } else {
          var k := i - |a|;
          assert all[i] == b[k];
          assert b[k].text == Chunks(pages[m], DefaultChunkSize)[k];
        }
      }
    }
  }

  /** Records come in page order. */
  lemma {:induction false} RecordsInPageOrder(pages: seq<string>, book: string, source: string)
    ensures forall i, j :: 0 <= i <= j < |Records(pages, book, source)| ==>
      Records(pages, book, source)[i].page <= Records(pages, book, source)[j].page
    decreases |pages|
  {
    if pages != [] {
      var m := |pages| - 1;
      var front := pages[..m];
      RecordsInPageOrder(front, book, source);
      RecordFields(front, book, source);
      var a, b := Records(front, book, source), PageRecords(pages[m], book, m + 1, source);
      assert forall i :: 0 <= i < |a| ==> a[i].page <= m;
      assert forall i :: 0 <= i < |b| ==> b[i].page == m + 1;
    }
  }

  /** The texts of the records numbered `page`, in order. */
  function TextsOfPage(rs: seq<ChunkRecord>, page: int): seq<string> {
    if rs == [] then []
    else (if rs[0].page == page then [rs[0].text] else []) + TextsOfPage(rs[1..], page)
  }

  lemma {:induction false} TextsOfPageAppend(a: seq<ChunkRecord>, b: seq<ChunkRecord>, page: int)
    ensures TextsOfPage(a + b, page) == TextsOfPage(a, page) + TextsOfPage(b, page)
    decreases |a|
  {
    if a != [] {
      assert (a + b)[1..] == a[1..] + b;
      TextsOfPageAppend(a[1..], b, page);
    } else {
      assert a + b == b;
    }
  }

  lemma {:induction false} TextsOfOnePage(rs: seq<ChunkRecord>, q: int, page: int)
    requires forall i :: 0 <= i < |rs| ==> rs[i].page == q
    ensures TextsOfPage(rs, page) == if page == q then seq(|rs|, i requires 0 <= i < |rs| => rs[i].text) else []
    decreases |rs|
  {
    if rs != [] {
      TextsOfOnePage(rs[1..], q, page);
    }
  }

  /** The records of one page hold its chunks, one each, in chunk order. */
  lemma TextsOfPageRecords(pageText: string, book: string, q: int, source: string, page: int)
    ensures TextsOfPage(PageRecords(pageText, book, q, source), page) ==
      if page == q then Chunks(pageText, DefaultChunkSize) else []
  {
    TextsOfOnePage(PageRecords(pageText, book, q, source), q, page);
  }

  /** Page `k + 1` has exactly one record per chunk of `pages[k]`, in chunk order; no other page number occurs. */
  lemma {:induction false} RecordsPerPage(pages: seq<string>, book: string, source: string, page: int)
    ensures 1 <= page <= |pages| ==>
      TextsOfPage(Records(pages, book, source), page) == Chunks(pages[page - 1], DefaultChunkSize)
    ensures !(1 <= page <= |pages|) ==> TextsOfPage(Records(pages, book, source), page) == []
    decreases |pages|
  {
    if pages != [] {
      var m := |pages| - 1;
      var front := pages[..m];
      RecordsPerPage(front, book, source, page);
      TextsOfPageAppend(Records(front, book, source), PageRecords(pages[m], book, m + 1, source), page);
      TextsOfPageRecords(pages[m], book, m + 1, source, page);
      if 1 <= page <= m {
        assert front[page - 1] == pages[page - 1];
      }
    }
  }
}
