/** A concrete start for the contest: twenty-one publishers of one small NAR each write a
    metadata file of their own. Every batch is accepted, all of them agree, and still
    publisher 0 can lose all its attempts fairly. */
module PublicationWitness {
  import opened Options
  import opened Narinfo
  import opened Publication
  import opened PublicationRuns
  import opened PublicationContest

  const SITE := Site("r", _ => true, _ => "", _ => "", _ => Some(0))

  const TAG := "t"
  const NAR := "n"

  // ----- one metadata text -----

  predicate Plain(s: string) {
    forall c <- s :: !IsBreak(c)
  }

  /** One field per line. */
  function Line(key: string, value: string): string {
    key + ": " + value
  }

  lemma {:induction false} FirstBreakAt(line: string, rest: string)
    requires Plain(line)
    ensures FirstBreak(line + "\n" + rest) == |line|
    ensures FirstBreak(line) == |line|
  {
    if line != [] {
      assert line[0] in line;
      FirstBreakAt(line[1..], rest);
      assert (line + "\n" + rest)[1..] == line[1..] + "\n" + rest;
    }
  }

  lemma LineSplits(line: string, rest: string)
    requires Plain(line)
    ensures SplitLines(line + "\n" + rest) == [line] + SplitLines(rest)
  {
    FirstBreakAt(line, rest);
    var text := line + "\n" + rest;
    assert text[..|line|] == line && text[|line| + 1..] == rest;
  }

  lemma LastLineSplits(line: string)
    requires Plain(line) && line != ""
    ensures SplitLines(line) == [line]
  {
    FirstBreakAt(line, "");
  }

  lemma {:induction false} LineParts(key: string, value: string)
    requires ':' !in key
    ensures Partition(Line(key, value)) == Some((key, value))
  {
    if key == "" {
      assert Line(key, value)[..2] == ": " && Line(key, value)[2..] == value;
    } else {
      LineParts(key[1..], value);
      assert Line(key, value)[1..] == Line(key[1..], value);
      assert Line(key, value)[0] == key[0] != ':';
      assert Line(key, value)[..2][0] == key[0];
      assert [key[0]] + key[1..] == key;
    }
  }

  const URL := Base(SITE, TAG) + NAR

  const TEXT := Line("URL", URL) + "\n"
    + (Line("FileSize", "0") + "\n" + (Line("FileHash", "h") + "\n" + Line("Sig", "s")))

  lemma PlainParts()
    ensures Plain("https://github.com/") && Plain("/releases/download/")
    ensures Plain("URL") && Plain("FileSize") && Plain("FileHash") && Plain("Sig") && Plain(": ")
  {
  }

  lemma PlainUrl()
    ensures Plain(URL)
  {
    PlainParts();
    assert URL == "https://github.com/" + ("r" + ("/releases/download/" + ("t" + ("/" + "n"))));
  }

  lemma FourLines(a: string, b: string, c: string, d: string)
    requires Plain(a) && Plain(b) && Plain(c) && Plain(d) && d != ""
    ensures SplitLines(a + "\n" + (b + "\n" + (c + "\n" + d))) == [a] + ([b] + ([c] + [d]))
  {
    LastLineSplits(d);
    LineSplits(c, d);
    LineSplits(b, c + "\n" + d);
    LineSplits(a, b + "\n" + (c + "\n" + d));
  }

  lemma PlainLine(key: string, value: string)
    requires Plain(key) && Plain(value)
    ensures Plain(Line(key, value))
  {
  }

  lemma TextLines()
    ensures SplitLines(TEXT)
         == [Line("URL", URL)] + ([Line("FileSize", "0")] + ([Line("FileHash", "h")] + [Line("Sig", "s")]))
  {
    PlainParts();
    PlainUrl();
    PlainLine("URL", URL);
    PlainLine("FileSize", "0");
    PlainLine("FileHash", "h");
    PlainLine("Sig", "s");
    FourLines(Line("URL", URL), Line("FileSize", "0"), Line("FileHash", "h"), Line("Sig", "s"));
  }

  lemma FieldAdded(key: string, value: string, rest: seq<string>, fields: map<string, string>)
    requires ':' !in key && key !in fields
    ensures FieldsFrom([Line(key, value)] + rest, fields) == FieldsFrom(rest, fields[key := value])
  {
    LineParts(key, value);
    assert ([Line(key, value)] + rest)[1..] == rest;
  }

  lemma FourFields(a: string, b: string, c: string, d: string, va: string, vb: string, vc: string, vd: string)
    requires ':' !in a && ':' !in b && ':' !in c && ':' !in d
    requires a != b && a != c && a != d && b != c && b != d && c != d
    ensures FieldsFrom([Line(a, va)] + ([Line(b, vb)] + ([Line(c, vc)] + [Line(d, vd)])), map[])
         == Some(map[a := va, b := vb, c := vc, d := vd])
  {
    FieldAdded(a, va, [Line(b, vb)] + ([Line(c, vc)] + [Line(d, vd)]), map[]);
    FieldAdded(b, vb, [Line(c, vc)] + [Line(d, vd)], map[a := va]);
    FieldAdded(c, vc, [Line(d, vd)], map[a := va, b := vb]);
    assert [Line(d, vd)] + [] == [Line(d, vd)];
    FieldAdded(d, vd, [], map[a := va, b := vb, c := vc]);
  }

  lemma KeysDiffer()
    ensures "URL" != "FileSize" && "URL" != "FileHash" && "URL" != "Sig"
    ensures "FileSize" != "FileHash" && "FileSize" != "Sig" && "FileHash" != "Sig"
    ensures ':' !in "URL" && ':' !in "FileSize" && ':' !in "FileHash" && ':' !in "Sig"
  {
    assert "URL"[0] != "Sig"[0] && "FileSize"[4] != "FileHash"[4];
  }

  lemma TextFields()
    ensures Metadata(TEXT) == Some(map["URL" := URL, "FileSize" := "0", "FileHash" := "h", "Sig" := "s"])
  {
    TextLines();
    KeysDiffer();
    FourFields("URL", "FileSize", "FileHash", "Sig", URL, "0", "h", "s");
  }

  // ----- twenty-one batches -----

  const SUFFIX := ".narinfo"

  /** A metadata file name of its own for each publisher. */
  function Name(j: nat): (name: string)
    ensures |name| == 32 + |SUFFIX|
  {
    seq(32, k => if k == j then '1' else '0') + SUFFIX
  }

  lemma NamesDiffer(j: nat, k: nat)
    requires j < 32 && k < 32 && j != k
    ensures Name(j) != Name(k)
  {
    assert Name(j)[j] != Name(k)[j];
  }

  lemma NameIsFile(j: nat)
    ensures FileName(Name(j)) && IsNarinfo(Name(j)) && Name(j) != CACHE_INFO && Name(j) != NOJEKYLL
  {
    assert Name(j)[32..] == SUFFIX;
  }

  function BatchOf(j: nat): Batch {
    Batch(TAG, map[CACHE_INFO := "", Name(j) := TEXT], map[NAR := ""])
  }

  lemma NarAfterBase()
    ensures Base(SITE, TAG) <= URL && URL[|Base(SITE, TAG)|..] == NAR && AssetName(NAR)
  {
  }

  lemma RecordIsAccepted(j: nat)
    ensures RecordAccepted(SITE, BatchOf(j), Name(j)) && NarName(SITE, BatchOf(j), Name(j)) == NAR
  {
    NameIsFile(j);
    TextFields();
    KeysDiffer();
    NarAfterBase();
  }

  lemma BatchAccepted(j: nat)
    ensures Accepted(SITE, BatchOf(j))
    ensures forall name | name in BatchOf(j).notes && IsNarinfo(name) :: NarName(SITE, BatchOf(j), name) == NAR
  {
    NameIsFile(j);
    RecordIsAccepted(j);
    assert !IsNarinfo(CACHE_INFO);
  }

  /** The release is public and holds the one NAR; nobody did anything yet. */
  function Start(): System {
    System(map[TAG := Release(false, map[NAR := Asset(true, 0, "")])], [map[]], [],
           seq(ATTEMPTS + 1, j requires 0 <= j <= ATTEMPTS => Publisher(BatchOf(j), Idle)))
  }

  lemma StartReady(j: nat)
    requires j <= ATTEMPTS
    ensures Ready(SITE, Start().releases, Start().pubs[j].batch)
  {
    BatchAccepted(j);
  }

  lemma StartNotes(j: nat)
    requires j <= ATTEMPTS
    ensures Notes(Start())[j] == map[CACHE_INFO := "", Name(j) := TEXT]
  {
  }

  lemma StartFresh(j: nat)
    requires j <= ATTEMPTS
    ensures CanStage(SITE, Notes(Start()), map[], j)
  {
    var notes := Notes(Start());
    StartNotes(j);
    NameIsFile(j);
    forall k | 0 <= k <= ATTEMPTS && k != j ensures Name(j) !in notes[k] {
      StartNotes(k);
      NamesDiffer(j, k);
    }
    assert Name(j) in notes[j];
    assert HasFresh(notes, map[], j);
  }

  lemma StartUnrelated()
    ensures Unrelated(SITE, Notes(Start()))
    ensures AllStage(SITE, Notes(Start()), map[], 0)
  {
    var notes := Notes(Start());
    forall j, k | 0 <= j <= ATTEMPTS && 0 <= k <= ATTEMPTS
      ensures NOJEKYLL !in notes[j] && AllKept(SITE, notes[k], notes[j])
    {
      StartNotes(j);
      StartNotes(k);
      NameIsFile(j);
      NameIsFile(k);
    }
    forall j | 0 <= j <= ATTEMPTS ensures CanStage(SITE, notes, map[], j) {
      StartFresh(j);
    }
  }

  /** The attempt limit is tight: with twenty-one agreeing publishers a fair run from a
      start like that of `NobodyFails` ends with one that gave up. */
  lemma TwentyOneCanFail() returns (t: System)
    ensures Initial(SITE, Start()) && Agreeing(SITE, Start()) && |Start().pubs| == ATTEMPTS + 1
    ensures FairlyReaches(SITE, Start(), t) && |t.pubs| > 0 && t.pubs[0].phase == Failed(Exhausted)
  {
    StartUnrelated();
    forall j | 0 <= j <= ATTEMPTS ensures Ready(SITE, Start().releases, Start().pubs[j].batch) {
      StartReady(j);
    }
    StartAgrees();
    t := LosesFromTheStart(SITE, Start(), 0);
  }

  lemma StartAgrees()
    ensures Agreeing(SITE, Start())
  {
    StartUnrelated();
    forall b, c | b in Batches(Start()) && c in Batches(Start()) ensures AllKept(SITE, c.notes, b.notes) {
      var j :| 0 <= j <= ATTEMPTS && Start().pubs[j].batch == b;
      var k :| 0 <= k <= ATTEMPTS && Start().pubs[k].batch == c;
      assert b.notes == Notes(Start())[j] && c.notes == Notes(Start())[k];
    }
  }
}
