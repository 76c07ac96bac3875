/** The script's driver: the confirmation gate (`_carry_on`) and `run`,
    which scrapes, filters, merges with the override files and writes the
    two output files, together with the exit status the process ends with
    (the `__main__` block reports a `ValueError` from `run` and ends
    normally). File contents are passed in and returned as strings. */
module Script {
  import opened Wrappers
  import opened Text
  import opened Filter
  import opened StringOrder
  import opened Merge
  import opened LineFile
  import opened Scrape

  /** The constants `run` calls `scrape_wiki` with. */
  const StartUrl := "https://en.wiktionary.org/w/index.php?title=Category:English_abbreviations&from=A"
  const MainUrl := "https://en.wiktionary.org"
  const NumPages := 21
  const Delay := 1.0

  /** Whether the script goes on after the prompt, or exits with a status. */
  datatype Gate = Proceed | Quit(status: nat)

  /** `_carry_on(ans)`: a yes-answer goes on, a no-answer exits cleanly
      (`sys.exit()`), anything else exits with status 2. */
  function CarryOn(ans: string): (g: Gate)
    ensures g == Proceed <==> ans in ["Y", "y", "Yes", "yes"]
    ensures g == Quit(0) <==> ans in ["N", "n", "No", "no"]
    ensures g.Quit? ==> g.status == 0 || g.status == 2
  {
    if ans !in ["Y", "y", "Yes", "yes", "N", "n", "No", "no"] then Quit(2)
    else if ans in ["N", "n", "No", "no"] then Quit(0)
    else Proceed
  }

  /** The answers of the script's own tests, stripped as `run` strips the
      input: surrounding spaces do not matter, inner ones do. */
  lemma CarryOnDeclinesPaddedNo()
    ensures CarryOn(Strip("   N    ")) == Quit(0)
  {
    assert Strip("   N    ") == "N" by {
      assert SkipSpaces("   N    ", 0) == 3;
      assert TrimEnd("   N    ", 3, 8) == 4;
    }
  }

  lemma CarryOnDeclinesPaddedWord()
    ensures CarryOn(Strip("   no   ")) == Quit(0)
  {
    assert Strip("   no   ") == "no" by {
      assert SkipSpaces("   no   ", 0) == 3;
      assert TrimEnd("   no   ", 3, 8) == 5;
    }
  }

  lemma CarryOnRejectsInnerSpace()
    ensures CarryOn(Strip("   N o   ")) == Quit(2)
  {
    assert Strip("   N o   ") == "N o" by {
      assert SkipSpaces("   N o   ", 0) == 3;
      assert TrimEnd("   N o   ", 3, 9) == 6;
    }
  }

  /** How a run ends. */
  datatype Stop =
    | Declined                      // a no-answer at the prompt
    | BadAnswer                     // an answer that is neither yes nor no
    | ScrapeFailed(error: ScrapeError)
    | NothingScraped                // ValueError("List wiki_abbrevs empty.")
    | FileError                     // OSError while reading add.txt or remove.txt
    | Finished

  /** The status the process exits with: `sys.exit()` gives 0, `sys.exit(2)`
      gives 2, `sys.exit(message)` gives 1, and a `ValueError` that reaches
      the `__main__` handler is printed and the process ends with 0. */
  function ExitStatus(stop: Stop): (status: nat)
    ensures status == 0 <==> !stop.BadAnswer? && !(stop.ScrapeFailed? && (stop.error.ConnectionFailed? || stop.error.UnexpectedStatus?))
    ensures status == 2 <==> stop.BadAnswer?
    ensures status == 1 <==> stop.ScrapeFailed? && (stop.error.ConnectionFailed? || stop.error.UnexpectedStatus?)
  {
    match stop
    case BadAnswer => 2
    case ScrapeFailed(e) => if e.ConnectionFailed? || e.UnexpectedStatus? then 1 else 0
    case _ => 0
  }

  /** The end of a run: why it stopped, and what it wrote to `wiktionary.txt`
      and `abbreviations.txt` (None: the file was not written). */
  datatype Outcome = Outcome(stop: Stop, wiktionary: Option<string>, abbreviations: Option<string>)

  /** `run()`: `answer` is what the user typed at the prompt, `fetch` stands
      for the site, `addFile` and `removeFile` for the contents of `add.txt`
      and `remove.txt` (None: the file cannot be read). */
  method Run(answer: string, fetch: string -> Page, addFile: Option<string>, removeFile: Option<string>)
    returns (out: Outcome)
    // the prompt decides first; nothing is written when the user does not say yes
    ensures CarryOn(Strip(answer)) == Quit(0) ==> out == Outcome(Declined, None, None)
    ensures CarryOn(Strip(answer)) == Quit(2) ==> out == Outcome(BadAnswer, None, None)
    // a failed scrape, or one that found nothing at all, writes nothing
    ensures CarryOn(Strip(answer)) == Proceed && Crawl(StartUrl, MainUrl, NumPages, fetch).Err? ==>
              out == Outcome(ScrapeFailed(Crawl(StartUrl, MainUrl, NumPages, fetch).error), None, None)
    ensures CarryOn(Strip(answer)) == Proceed && Crawl(StartUrl, MainUrl, NumPages, fetch) == Ok([]) ==>
              out == Outcome(NothingScraped, None, None)
    // otherwise the filtered scrape is written, in scrape order, even when filtering left nothing
    ensures CarryOn(Strip(answer)) == Proceed && Crawl(StartUrl, MainUrl, NumPages, fetch).Ok?
            && Crawl(StartUrl, MainUrl, NumPages, fetch).value != [] ==>
              out.wiktionary == Some(Encode(FilterAbbrevs(Crawl(StartUrl, MainUrl, NumPages, fetch).value)))
    // an unreadable override file stops the run after wiktionary.txt was written
    ensures out.wiktionary.Some? && (addFile.None? || removeFile.None?) ==>
              out.stop == FileError && out.abbreviations.None?
    // with both override files the merged list is written
    ensures out.wiktionary.Some? && addFile.Some? && removeFile.Some? ==>
              out.stop == Finished &&
              out.abbreviations == Some(Encode(CreateAbbrevList(
                                       FilterAbbrevs(Crawl(StartUrl, MainUrl, NumPages, fetch).value),
                                       FilterAbbrevs(ReadLines(addFile.value)),
                                       FilterAbbrevs(ReadLines(removeFile.value)))))
    // reading the written files back gives valid abbreviations; abbreviations.txt is sorted, without duplicates
    ensures out.wiktionary.Some? ==> forall x :: x in ReadLines(out.wiktionary.value) ==> MatchesPattern(x)
    ensures out.abbreviations.Some? ==>
              var final := ReadLines(out.abbreviations.value);
              Increasing(final) && forall x :: x in final ==> MatchesPattern(x)
  {
    var ans := Strip(answer);
    var gate := CarryOn(ans);
    if gate.Quit? {
      return Outcome(if gate.status == 0 then Declined else BadAnswer, None, None);
    }
    var scraped := ScrapeWiki(StartUrl, MainUrl, NumPages, Delay, fetch);
    if scraped.Err? {
      return Outcome(ScrapeFailed(scraped.error), None, None);
    }
    var wikiAbbrevs := scraped.value;
    if wikiAbbrevs == [] {
      return Outcome(NothingScraped, None, None);
    }
    wikiAbbrevs := FilterAbbrevs(wikiAbbrevs);
    var wiktionary := WriteLines(wikiAbbrevs);
    NoNewlines(wikiAbbrevs);
    ReadInvertsWrite(wikiAbbrevs);
    if addFile.None? || removeFile.None? {
      return Outcome(FileError, Some(wiktionary), None);
    }
    var addAbbrevs := Split(addFile.value);
    var removeAbbrevs := Split(removeFile.value);
    addAbbrevs := addAbbrevs[..|addAbbrevs| - 1];
    removeAbbrevs := removeAbbrevs[..|removeAbbrevs| - 1];
    addAbbrevs := FilterAbbrevs(addAbbrevs);
    removeAbbrevs := FilterAbbrevs(removeAbbrevs);
    var abbrevList := CreateAbbrevList(wikiAbbrevs, addAbbrevs, removeAbbrevs);
    var abbreviations := WriteLines(abbrevList);
    NoNewlines(abbrevList);
    ReadInvertsWrite(abbrevList);
    return Outcome(Finished, Some(wiktionary), Some(abbreviations));
  }

  /** A two-page category listing: the start page links on to the second,
      which has no "next page" link; every other URL is unreachable. */
  function TwoPageSite(url: string): Page
  {
    if url == StartUrl then Fetched(200, Some(Listing(["Jan.", "Feb", "Mar."], Some("/p2"))))
    else if url == MainUrl + "/p2" then Fetched(200, Some(Listing(["Apr."], None)))
    else Unreachable
  }

  /** On the two-page site the scrape stops at the second page, well inside
      the 21-page budget, and keeps the entries in page order. */
  lemma TwoPageScrape()
    ensures Crawl(StartUrl, MainUrl, NumPages, TwoPageSite) == Ok(["Jan.", "Feb", "Mar.", "Apr."])
  {
    var first := TwoPageSite(StartUrl);
    assert first == Fetched(200, Some(Listing(["Jan.", "Feb", "Mar."], Some("/p2"))));
    assert NextAt(first) == Some("/p2");
    var second := MainUrl + "/p2";
    assert |second| != |StartUrl|;
    assert TwoPageSite(second) == Fetched(200, Some(Listing(["Apr."], None)));
    assert Crawl(second, MainUrl, NumPages - 1, TwoPageSite) == Ok(["Apr."]);
    assert Crawl(StartUrl, MainUrl, NumPages, TwoPageSite)
        == Prepend(["Jan.", "Feb", "Mar."], Crawl(second, MainUrl, NumPages - 1, TwoPageSite));
    assert ["Jan.", "Feb", "Mar."] + ["Apr."] == ["Jan.", "Feb", "Mar.", "Apr."];
  }

  /** Its entries filtered: what `wiktionary.txt` then holds. */
  lemma TwoPageFiltered()
    ensures FilterAbbrevs(["Jan.", "Feb", "Mar.", "Apr."]) == ["Jan.", "Mar.", "Apr."]
  {
    var xs := ["Jan.", "Feb", "Mar.", "Apr."];
    assert StripAll(xs) == xs by {
      StripUnspaced("Jan.");
      StripUnspaced("Feb");
      StripUnspaced("Mar.");
      StripUnspaced("Apr.");
    }
    var rest := ["Mar.", "Apr."];
    assert KeepMatches(rest) == rest by {
      assert MatchesPattern("Mar.") && MatchesPattern("Apr.");
      AllMatchFromMembers(rest);
      KeepAllMatches(rest);
    }
    assert KeepMatches(xs[1..]) == rest by {
      assert !MatchesPattern("Feb");
      assert xs[1..][1..] == rest;
    }
    assert MatchesPattern("Jan.");
  }

  /** The filtered entries merged with an addition and a removal: what
      `abbreviations.txt` then holds. */
  lemma TwoPageMerged()
    ensures CreateAbbrevList(["Jan.", "Mar.", "Apr."], ["X."], ["Mar."]) == ["Apr.", "Jan.", "X."]
  {
    var t := ["Apr.", "Jan.", "X."];
    assert Increasing(t);
    MergeIsTheSortedSet(["Jan.", "Mar.", "Apr."], ["X."], ["Mar."], t);
  }

  /** An override file holding one valid abbreviation on a line of its own
      reads and filters to exactly that abbreviation. */
  lemma ReadOneLine(x: string)
    requires MatchesPattern(x)
    ensures FilterAbbrevs(ReadLines(x + "\n")) == [x]
  {
    assert Encode([x]) == x + "\n" by {
      assert [x][1..] == [];
    }
    MatchIsUnspaced(x);
    ReadInvertsWrite([x]);
    assert StripAll([x]) == [x];
    assert [x][1..] == [];
  }

  /** Three entries written one per line. */
  lemma EncodeListed(es: seq<string>, a: string, b: string, c: string)
    requires es == [a, b, c]
    ensures Encode(es) == a + "\n" + b + "\n" + c + "\n"
  {
    var es := [a, b, c];
    assert es[1..] == [b, c];
    assert es[1..][1..] == [c];
    assert es[1..][1..][1..] == [];
    assert Encode([c]) == c + "\n";
    assert Encode([b, c]) == b + "\n" + (c + "\n");
    assert Encode(es) == a + "\n" + (b + "\n" + (c + "\n"));
  }

  /** What a run on the example site writes to `wiktionary.txt`: the
      filtered entries in scrape order. */
  lemma TwoPageWiktionaryFile()
    ensures Encode(FilterAbbrevs(Crawl(StartUrl, MainUrl, NumPages, TwoPageSite).value)) == "Jan.\nMar.\nApr.\n"
  {
    TwoPageScrape();
    TwoPageFiltered();
    FilteredExampleText(FilterAbbrevs(Crawl(StartUrl, MainUrl, NumPages, TwoPageSite).value));
  }

  /** The text of the filtered example list, one entry per line. */
  lemma FilteredExampleText(es: seq<string>)
    requires es == ["Jan.", "Mar.", "Apr."]
    ensures Encode(es) == "Jan.\nMar.\nApr.\n"
  {
    EncodeListed(es, "Jan.", "Mar.", "Apr.");
  }

  /** The example's override files as `run` reads and filters them:
      `add.txt` holding the line `X.`, `remove.txt` the line `Mar.`. */
  lemma TwoPageOverrideFiles()
    ensures FilterAbbrevs(ReadLines("X.\n")) == ["X."]
    ensures FilterAbbrevs(ReadLines("Mar.\n")) == ["Mar."]
  {
    assert "X.\n" == "X." + "\n";
    ReadOneLine("X.");
    assert "Mar.\n" == "Mar." + "\n";
    ReadOneLine("Mar.");
  }

  /** The merge a run on the example site computes when `add.txt` holds the
      line `X.` and `remove.txt` the line `Mar.`. */
  lemma TwoPageMergedFromFiles()
    ensures CreateAbbrevList(FilterAbbrevs(Crawl(StartUrl, MainUrl, NumPages, TwoPageSite).value),
                             FilterAbbrevs(ReadLines("X.\n")),
                             FilterAbbrevs(ReadLines("Mar.\n")))
            == ["Apr.", "Jan.", "X."]
  {
    TwoPageScrape();
    TwoPageFiltered();
    TwoPageOverrideFiles();
    TwoPageMerged();
  }

  /** What that run writes to `abbreviations.txt`: the merge, sorted. */
  lemma TwoPageAbbreviationsFile()
    ensures Encode(CreateAbbrevList(FilterAbbrevs(Crawl(StartUrl, MainUrl, NumPages, TwoPageSite).value),
                                    FilterAbbrevs(ReadLines("X.\n")),
                                    FilterAbbrevs(ReadLines("Mar.\n"))))
            == "Apr.\nJan.\nX.\n"
  {
    TwoPageScrape();
    TwoPageMergedFromFiles();
    SortedExampleText(CreateAbbrevList(FilterAbbrevs(Crawl(StartUrl, MainUrl, NumPages, TwoPageSite).value),
                                       FilterAbbrevs(ReadLines("X.\n")),
                                       FilterAbbrevs(ReadLines("Mar.\n"))));
  }

  /** The text of the sorted example list, one entry per line. */
  lemma SortedExampleText(es: seq<string>)
    requires es == ["Apr.", "Jan.", "X."]
    ensures Encode(es) == "Apr.\nJan.\nX.\n"
  {
    EncodeListed(es, "Apr.", "Jan.", "X.");
  }

  /** Strings that match the pattern hold no newline, so they survive a
      write and read. */
  lemma NoNewlines(ss: seq<string>)
    requires forall x :: x in ss ==> MatchesPattern(x)
    ensures forall i :: 0 <= i < |ss| ==> '\n' !in ss[i]
  {
    forall i | 0 <= i < |ss|
      ensures '\n' !in ss[i]
    {
      MatchIsUnspaced(ss[i]);
    }
  }
}
