/** Nix metadata files as `github-cache.py` reads them: lines, fields, and the
    equivalence that lets a publisher keep an already published first URL. */
module Narinfo {
  import opened Options

  /** The functions this model cannot see: the URL check, SHA-256, Nix's hash
      conversion and Python's `int`. Every result holds for any choice of them. */
  datatype Site = Site(
    repo: string,
    isHttps: string -> bool,
    sha256: string -> string,
    base16: string -> string,
    number: string -> Option<int>)

  const URL_PREFIX := "URL: "
  const SIZE_LIMIT: nat := 65536

  // ----- lines -----

  /** The line boundaries of Python's `str.splitlines`. */
  predicate IsBreak(c: char) {
    c in {'\n', '\r', '\U{0B}', '\U{0C}', '\U{1C}', '\U{1D}', '\U{1E}', '\U{85}', '\U{2028}', '\U{2029}'}
  }

  function FirstBreak(text: string): (k: nat)
    ensures k <= |text|
    ensures k < |text| ==> IsBreak(text[k])
  {
    if text == "" || IsBreak(text[0]) then 0 else 1 + FirstBreak(text[1..])
  }

  function SplitLines(text: string): seq<string>
    decreases |text|
  {
    if text == "" then []
    else
      var k := FirstBreak(text);
      if k == |text| then [text]
      else
        var width := if text[k] == '\r' && k + 1 < |text| && text[k + 1] == '\n' then 2 else 1;
        [text[..k]] + SplitLines(text[k + width..])
  }

  predicate IsUrlLine(line: string) {
    URL_PREFIX <= line
  }

  function WithoutUrl(lines: seq<string>): seq<string> {
    if lines == [] then []
    else if IsUrlLine(lines[0]) then WithoutUrl(lines[1..])
    else [lines[0]] + WithoutUrl(lines[1..])
  }

  function Urls(lines: seq<string>): seq<string> {
    if lines == [] then []
    else if IsUrlLine(lines[0]) then [lines[0][|URL_PREFIX|..]] + Urls(lines[1..])
    else Urls(lines[1..])
  }

  // ----- fields -----

  /** Python's `line.partition(": ")`, or None when the separator is missing. */
  function Partition(line: string): Option<(string, string)> {
    if |line| < 2 then None
    else if line[..2] == ": " then Some(("", line[2..]))
    else match Partition(line[1..])
         case None => None
         case Some(kv) => Some(([line[0]] + kv.0, kv.1))
  }

  function FieldsFrom(lines: seq<string>, fields: map<string, string>): Option<map<string, string>> {
    if lines == [] then Some(fields)
    else match Partition(lines[0])
         case None => None
         case Some(kv) =>
           if kv.0 in fields && kv.0 != "Sig" then None
           else FieldsFrom(lines[1..], fields[kv.0 := kv.1])
  }

  /** `metadata`: the fields of a signed file, or None where the source raises. */
  function Metadata(text: string): (r: Option<map<string, string>>)
    ensures r.Some? ==> "Sig" in r.value && r.value["Sig"] != ""
  {
    match FieldsFrom(SplitLines(text), map[])
    case None => None
    case Some(fields) => if "Sig" in fields && fields["Sig"] != "" then Some(fields) else None
  }

  function Key(line: string): string {
    if Partition(line).Some? then Partition(line).value.0 else ""
  }

  /** Every line is a field, and only the signature may come more than once. */
  predicate Parses(lines: seq<string>) {
    && (forall k | 0 <= k < |lines| :: Partition(lines[k]).Some?)
    && (forall j, k | 0 <= j < k < |lines| && Key(lines[j]) == Key(lines[k]) :: Key(lines[k]) == "Sig")
  }

  predicate NoneAgain(lines: seq<string>, fields: map<string, string>) {
    forall k | 0 <= k < |lines| && Key(lines[k]) in fields :: Key(lines[k]) == "Sig"
  }

  /** The value of the last line with a key. */
  function LastValue(lines: seq<string>, key: string): Option<string> {
    if lines == [] then None
    else
      var later := LastValue(lines[1..], key);
      if later.Some? then later
      else if Partition(lines[0]).Some? && Key(lines[0]) == key then Some(Partition(lines[0]).value.1)
      else None
  }

  function At(fields: map<string, string>, key: string): Option<string> {
    if key in fields then Some(fields[key]) else None
  }

  lemma ParsesFirst(lines: seq<string>, fields: map<string, string>)
    requires lines != [] && Partition(lines[0]).Some?
    requires Key(lines[0]) in fields ==> Key(lines[0]) == "Sig"
    ensures Parses(lines) && NoneAgain(lines, fields)
       <==> Parses(lines[1..]) && NoneAgain(lines[1..], fields[Key(lines[0]) := Partition(lines[0]).value.1])
  {
    var more := fields[Key(lines[0]) := Partition(lines[0]).value.1];
    if Parses(lines) && NoneAgain(lines, fields) {
      forall k | 0 <= k < |lines| - 1 && Key(lines[1..][k]) in more ensures Key(lines[1..][k]) == "Sig" {
        assert lines[1..][k] == lines[k + 1];
      }
    }
    if Parses(lines[1..]) && NoneAgain(lines[1..], more) {
      forall k | 1 <= k < |lines|
        ensures Partition(lines[k]).Some? && (Key(lines[k]) in more ==> Key(lines[k]) == "Sig")
      {
        assert lines[1..][k - 1] == lines[k];
      }
      forall j, k | 0 <= j < k < |lines| && Key(lines[j]) == Key(lines[k]) ensures Key(lines[k]) == "Sig" {
        if j > 0 {
          assert lines[1..][j - 1] == lines[j] && lines[1..][k - 1] == lines[k];
        }
      }
    }
  }

  lemma {:induction false} FieldsExactly(lines: seq<string>, fields: map<string, string>, key: string)
    ensures FieldsFrom(lines, fields).Some? <==> Parses(lines) && NoneAgain(lines, fields)
    ensures FieldsFrom(lines, fields).Some? ==>
              var last := LastValue(lines, key);
              At(FieldsFrom(lines, fields).value, key) == if last.Some? then last else At(fields, key)
  {
    if lines != [] && Partition(lines[0]).Some? && (Key(lines[0]) in fields ==> Key(lines[0]) == "Sig") {
      FieldsExactly(lines[1..], fields[Key(lines[0]) := Partition(lines[0]).value.1], key);
      ParsesFirst(lines, fields);
    }
  }

  /** A file is read exactly when its lines parse and its last signature is not empty; then
      each key has the value of its last line. */
  lemma MetadataExactly(text: string, key: string)
    ensures var lines := SplitLines(text);
            && (Metadata(text).Some? <==>
                  Parses(lines) && LastValue(lines, "Sig").Some? && LastValue(lines, "Sig").value != "")
            && (Metadata(text).Some? ==> At(Metadata(text).value, key) == LastValue(lines, key))
  {
    FieldsExactly(SplitLines(text), map[], "Sig");
    FieldsExactly(SplitLines(text), map[], key);
  }

  // ----- equivalence -----

  predicate IsNarinfo(name: string) {
    |name| >= 8 && name[|name| - 8..] == ".narinfo"
  }

  /** `equivalent_metadata_bytes` returning True: only the URL line may differ. */
  predicate Equivalent(site: Site, name: string, data: string, local: string) {
    var remote := SplitLines(data);
    && IsNarinfo(name)
    && 0 < |data| <= SIZE_LIMIT
    && |Urls(remote)| == 1
    && site.isHttps(Urls(remote)[0])
    && WithoutUrl(remote) == WithoutUrl(SplitLines(local))
  }

  lemma UrlLineKey(line: string)
    ensures IsUrlLine(line) ==> Partition(line) == Some(("URL", line[|URL_PREFIX|..]))
    ensures Partition(line).Some? && Partition(line).value.0 == "URL" ==> IsUrlLine(line)
  {
    if IsUrlLine(line) {
      var one, two, three := line[1..], line[2..], line[3..];
      assert line[0] == 'U' && line[1] == 'R' && line[2] == 'L' && line[3] == ':' && line[4] == ' ';
      assert one[0] == 'R' && two[0] == 'L' && three[..2] == ": ";
      assert one[1..] == two && two[1..] == three && three[2..] == line[5..];
      assert line[..2][0] != ':' && one[..2][0] != ':' && two[..2][0] != ':';
      assert Partition(three) == Some(("", line[5..]));
      assert Partition(two) == Some((['L'] + "", line[5..]));
      assert Partition(one) == Some((['R'] + (['L'] + ""), line[5..]));
      assert ['U'] + (['R'] + (['L'] + "")) == "URL";
    }
    PartitionKey(line);
  }

  /** The key and the separator that `Partition` finds are a prefix of the line. */
  lemma {:induction false} PartitionKey(line: string)
    ensures var p := Partition(line); p.Some? ==> p.value.0 + ": " <= line
  {
    if |line| < 2 {
    } else if line[..2] == ": " {
      assert line == ": " + line[2..];
    } else {
      PartitionKey(line[1..]);
      assert line == [line[0]] + line[1..];
    }
  }

  /** Dropping the URL lines before parsing drops exactly the URL field. */
  lemma {:induction false} FieldsWithoutUrl(lines: seq<string>, fields: map<string, string>)
    requires FieldsFrom(lines, fields).Some?
    ensures FieldsFrom(WithoutUrl(lines), fields - {"URL"})
         == Some(FieldsFrom(lines, fields).value - {"URL"})
  {
    if lines != [] {
      UrlLineKey(lines[0]);
      var kv := Partition(lines[0]).value;
      var next := fields[kv.0 := kv.1];
      FieldsWithoutUrl(lines[1..], next);
      if IsUrlLine(lines[0]) {
        assert next - {"URL"} == fields - {"URL"};
      } else {
        assert next - {"URL"} == (fields - {"URL"})[kv.0 := kv.1];
        var rest := WithoutUrl(lines);
        assert rest[1..] == WithoutUrl(lines[1..]);
      }
    }
  }

  /** Equivalent files agree on every field but the URL. */
  lemma EquivalentFields(site: Site, name: string, data: string, local: string, key: string)
    requires Equivalent(site, name, data, local)
    requires Metadata(data).Some? && Metadata(local).Some?
    requires key != "URL"
    ensures key in Metadata(data).value <==> key in Metadata(local).value
    ensures key in Metadata(data).value ==> Metadata(data).value[key] == Metadata(local).value[key]
  {
    FieldsWithoutUrl(SplitLines(data), map[]);
    FieldsWithoutUrl(SplitLines(local), map[]);
    var remote, own := Metadata(data).value, Metadata(local).value;
    assert remote - {"URL"} == own - {"URL"};
    assert key in remote <==> key in remote - {"URL"};
    assert key in own <==> key in own - {"URL"};
    if key in remote {
      assert (remote - {"URL"})[key] == remote[key];
    }
  }
}
