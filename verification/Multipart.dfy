/** `EncodeMultipartFormData`, and a parser that undoes it.

The parser follows section 5.1.1 of RFC 2046 (a delimiter is CRLF, two hyphens
and the boundary, and only the beginning of a line is compared) and the
form-data headers of section 4 of RFC 7578. Both are stated for any boundary and
header wording of the right shape; `UPLOAD` is the one in use.
*/
module Multipart {
  import opened Options
  import opened Searching

  datatype Field = Field(name: string, value: string)

  datatype File = File(name: string, filename: string, value: string)

  datatype Part = FieldPart(field: Field) | FilePart(file: File) {

    function Value(): string {
      if FieldPart? then field.value else file.value
    }

    /** No quote or line break in a name; no line of the value begins with the boundary. */
    predicate Clean(form: Form) {
      && form.NoDelimiter("\r\n" + Value())
      && match this
         case FieldPart(f) => CleanName(f.name)
         case FilePart(f) => CleanName(f.name) && CleanName(f.filename)
    }
  }

  function Parts(fields: seq<Field>, files: seq<File>): seq<Part> {
    FieldParts(fields) + FileParts(files)
  }

  function FieldParts(fields: seq<Field>): seq<Part> {
    seq(|fields|, i requires 0 <= i < |fields| => FieldPart(fields[i]))
  }

  function FileParts(files: seq<File>): seq<Part> {
    seq(|files|, i requires 0 <= i < |files| => FilePart(files[i]))
  }

  function FieldsOf(parts: seq<Part>): seq<Field> {
    if parts == [] then []
    else (if parts[0].FieldPart? then [parts[0].field] else []) + FieldsOf(parts[1..])
  }

  function FilesOf(parts: seq<Part>): seq<File> {
    if parts == [] then []
    else (if parts[0].FilePart? then [parts[0].file] else []) + FilesOf(parts[1..])
  }

  predicate CleanName(s: string) {
    '\"' !in s && '\r' !in s && '\n' !in s
  }

  /** The text up to the first c, and what follows it. */
  function Until(t: string, c: char): Option<(string, string)> {
    if t == "" then None
    else if t[0] == c then Some(("", t[1..]))
    else match Until(t[1..], c)
      case None => None
      case Some((a, b)) => Some(([t[0]] + a, b))
  }

  function Strip(t: string, prefix: string): Option<string> {
    if prefix <= t then Some(t[|prefix|..]) else None
  }

  /** The boundary parameter of a multipart/form-data content type. */
  function BoundaryOf(contentType: string): Option<string> {
    match Until(contentType, ';')
    case None => None
    case Some((media, parameters)) => if media == "multipart/form-data" then Strip(parameters, " boundary=") else None
  }

  /** A quoted string of one line, its opening quote already read. */
  function Quoted(t: string): Option<(string, string)> {
    match Until(t, '\"')
    case Some((s, rest)) => if CleanName(s) then Some((s, rest)) else None
    case None => None
  }

  /** '\r\n'.join(lines) */
  function Join(lines: seq<string>): string {
    if lines == [] then ""
    else if |lines| == 1 then lines[0]
    else Join(lines[..|lines| - 1]) + "\r\n" + lines[|lines| - 1]
  }

  /** The fixed texts, and the content type guessed for a file name. */
  datatype Form = Form(boundary: string, disposition: string, filename: string, typeLabel: string,
                       guess: string -> string)
  {
    ghost predicate Valid() {
      && '\r' !in boundary && '\r' !in disposition
      && '\r' !in filename && filename != ""
      && '\r' !in typeLabel && typeLabel != "" && typeLabel[0] != '-'
      && forall f :: '\r' !in guess(f)
    }

    // ----- the encoder -----

    function DashBoundary(): string {
      "--" + boundary
    }

    function Delimiter(): string {
      "\r\n" + DashBoundary()
    }

    /** The header lines, each followed by CRLF. */
    function Head(p: Part): string {
      match p
      case FieldPart(f) => disposition + f.name + "\"" + "\r\n"
      case FilePart(f) =>
        disposition + f.name + "\"" + filename + f.filename + "\"" + "\r\n" + typeLabel + guess(f.filename) + "\r\n"
    }

    function Body(p: Part): string {
      Head(p) + ("\r\n" + p.Value())
    }

    /** What follows the hyphens and boundary of a delimiter line. */
    function AfterDelimiter(parts: seq<Part>): string {
      if parts == [] then "--\r\n"
      else "\r\n" + (Body(parts[0]) + Delimiter() + AfterDelimiter(parts[1..]))
    }

    function Encode(fields: seq<Field>, files: seq<File>): string {
      DashBoundary() + AfterDelimiter(Parts(fields, files))
    }

    // ----- the parser -----

    function ParseFile(name: string, t: string): Option<Part> {
      match Strip(t, filename)
      case None => None
      case Some(t1) =>
        match Quoted(t1)
        case None => None
        case Some((fname, t2)) =>
          match Strip(t2, "\r\n" + typeLabel)
          case None => None
          case Some(t3) =>
            match Until(t3, '\r')
            case None => None
            case Some((_, t4)) =>
              match Strip(t4, "\n\r\n")
              case None => None
              case Some(value) => Some(FilePart(File(name, fname, value)))
    }

    function ParsePart(t: string): Option<Part> {
      match Strip(t, disposition)
      case None => None
      case Some(t1) =>
        match Quoted(t1)
        case None => None
        case Some((name, t2)) =>
          match Strip(t2, "\r\n\r\n")
          case Some(value) => Some(FieldPart(Field(name, value)))
          case None => ParseFile(name, t2)
    }

    /** The next part and what follows its delimiter, from just after the boundary
        of a delimiter line. */
    function ParseNext(t: string): (r: Option<(Part, string)>)
      ensures r.Some? ==> |r.value.1| < |t|
    {
      match Strip(t, "\r\n")
      case None => None
      case Some(t1) =>
        var i := FindFrom(Literal(Delimiter()), t1, 0);
        if i < 0 then None
        else match ParsePart(t1[..i])
          case None => None
          case Some(p) => Some((p, t1[i + |Delimiter()|..]))
    }

    function ParseParts(t: string): Option<seq<Part>>
      decreases |t|
    {
      if "--" <= t then Some([])
      else match ParseNext(t)
        case None => None
        case Some((p, rest)) =>
          match ParseParts(rest)
          case None => None
          case Some(ps) => Some([p] + ps)
    }

    function Decode(body: string): Option<(seq<Field>, seq<File>)> {
      match Strip(body, DashBoundary())
      case None => None
      case Some(t) =>
        match ParseParts(t)
        case None => None
        case Some(parts) => Some((FieldsOf(parts), FilesOf(parts)))
    }

    /** A message is read with the boundary that its content type names. */
    function DecodeMessage(contentType: string, body: string): Option<(seq<Field>, seq<File>)> {
      match BoundaryOf(contentType)
      case None => None
      case Some(b) => this.(boundary := b).Decode(body)
    }

    // ----- what comes back -----

    predicate NoDelimiter(t: string) {
      forall i :: 0 <= i < |t| ==> !Literal(Delimiter()).MatchesAt(t, i)
    }

    predicate Clean(fields: seq<Field>, files: seq<File>) {
      forall p :: p in Parts(fields, files) ==> p.Clean(this)
    }

    lemma FieldComesBack(f: Field)
      requires CleanName(f.name)
      ensures ParsePart(Body(FieldPart(f))) == Some(FieldPart(f))
    {
      var t2 := "\r\n\r\n" + f.value;
      var t1 := f.name + ['\"'] + t2;
      assert Body(FieldPart(f)) == disposition + t1;
      StripFinds(disposition, t1);
      UntilFinds(f.name, '\"', t2);
      StripFinds("\r\n\r\n", f.value);
    }

    lemma FileComesBack(f: File)
      requires CleanName(f.name) && CleanName(f.filename) && Valid()
      ensures ParsePart(Body(FilePart(f))) == Some(FilePart(f))
    {
      var u2 := AfterName(f);
      var u1 := f.name + ['\"'] + u2;
      FileBody(disposition, f.name, filename, f.filename, typeLabel, guess(f.filename), f.value);
      StripFinds(disposition, u1);
      UntilFinds(f.name, '\"', u2);
      assert u2[0] == filename[0] != '\r';
      RestComesBack(f);
    }

    /** The text of a file part after its quoted name, nested the way it is read. */
    function AfterName(f: File): string {
      filename + (f.filename + ['\"'] + (("\r\n" + typeLabel) + (guess(f.filename) + ['\r'] + ("\n\r\n" + f.value))))
    }

    lemma RestComesBack(f: File)
      requires CleanName(f.name) && CleanName(f.filename) && Valid()
      ensures ParseFile(f.name, AfterName(f)) == Some(FilePart(f))
    {
      var t4 := "\n\r\n" + f.value;
      var t3 := guess(f.filename) + ['\r'] + t4;
      var t2 := ("\r\n" + typeLabel) + t3;
      StripFinds(filename, f.filename + ['\"'] + t2);
      UntilFinds(f.filename, '\"', t2);
      StripFinds("\r\n" + typeLabel, t3);
      UntilFinds(guess(f.filename), '\r', t4);
      StripFinds("\n\r\n", f.value);
    }

    lemma MatchChars(t: string, i: int)
      requires Valid() && Literal(Delimiter()).MatchesAt(t, i)
      ensures t[i] == '\r' && t[i + 1] == '\n' && t[i + 2] == '-'
      ensures forall j :: i < j < i + |Delimiter()| ==> t[j] != '\r'
    {
      var d := t[i..i + |Delimiter()|];
      assert d[0] == t[i] && d[1] == t[i + 1] && d[2] == t[i + 2];
      forall j | i < j < i + |Delimiter()| ensures t[j] != '\r' {
        assert t[j] == d[j - i];
        assert j - i >= 4 ==> d[j - i] == boundary[j - i - 4];
      }
    }

    /** No line of the head begins with a hyphen. */
    lemma HeadHasNoDelimiter(p: Part, more: string, i: int)
      requires Valid() && p.Clean(this) && 0 <= i < |Head(p)|
      ensures !Literal(Delimiter()).MatchesAt(Head(p) + ("\r\n" + more), i)
    {
      match p {
        case FieldPart(f) =>
          var line := disposition + f.name + "\"";
          assert Head(p) + ("\r\n" + more) == line + ("\r\n\r\n" + more);
          OneLineHead(line, more, i);
        case FilePart(f) =>
          var l1 := disposition + f.name + "\"" + filename + f.filename + "\"";
          var l2 := typeLabel + guess(f.filename);
          TwoLines(l1, typeLabel, guess(f.filename), more);
          assert l2[0] == typeLabel[0];
          TwoLineHead(l1, l2, more, i);
      }
    }

    lemma TwoLineHead(l1: string, l2: string, more: string, i: int)
      requires Valid() && '\r' !in l1 && '\r' !in l2 && l2 != "" && l2[0] != '-' && 0 <= i < |l1| + |l2| + 4
      ensures !Literal(Delimiter()).MatchesAt(l1 + ("\r\n" + (l2 + ("\r\n\r\n" + more))), i)
    {
      var tail := l2 + ("\r\n\r\n" + more);
      var t := l1 + ("\r\n" + tail);
      if i >= |l1| + 2 {
        OneLineHead(l2, more, i - |l1| - 2);
        assert t[|l1| + 2..|t|] == tail;
        if i + |Delimiter()| <= |t| {
          Slide(Literal(Delimiter()), t, |l1| + 2, |t|, i);
        }
      } else {
        assert t[|l1| + 1] == '\n' && t[|l1| + 2] == tail[0] == l2[0];
        assert i < |l1| ==> t[i] in l1;
        if Literal(Delimiter()).MatchesAt(t, i) {
          MatchChars(t, i);
        }
      }
    }

    lemma OneLineHead(line: string, more: string, i: int)
      requires Valid() && '\r' !in line && 0 <= i < |line| + 2
      ensures !Literal(Delimiter()).MatchesAt(line + ("\r\n\r\n" + more), i)
    {
      var t := line + ("\r\n\r\n" + more);
      assert t[|line| + 1] == '\n' && t[|line| + 2] == '\r';
      assert i < |line| ==> t[i] in line;
      if Literal(Delimiter()).MatchesAt(t, i) {
        MatchChars(t, i);
      }
    }

    /** The first delimiter found is the one written after the part. */
    lemma DelimiterIsFound(p: Part, rest: string)
      requires Valid() && p.Clean(this)
      ensures FindFrom(Literal(Delimiter()), Body(p) + Delimiter() + rest, 0) == |Body(p)|
    {
      var t, n := Body(p) + Delimiter() + rest, |Body(p)|;
      assert t[n..n + |Delimiter()|] == Delimiter();
      assert Literal(Delimiter()).MatchesAt(t, n);
      forall i | 0 <= i < n ensures !Literal(Delimiter()).MatchesAt(t, i) {
        BodyHasNoDelimiter(p, rest, i);
      }
    }

    lemma BodyHasNoDelimiter(p: Part, rest: string, i: int)
      requires Valid() && p.Clean(this) && 0 <= i < |Body(p)|
      ensures !Literal(Delimiter()).MatchesAt(Body(p) + Delimiter() + rest, i)
    {
      if i < |Head(p)| {
        Regroup(Head(p), p.Value(), Delimiter(), rest);
        HeadHasNoDelimiter(p, p.Value() + Delimiter() + rest, i);
      } else {
        ValueHasNoDelimiter(p, Body(p) + Delimiter() + rest, rest, i);
      }
    }

    lemma ValueHasNoDelimiter(p: Part, t: string, rest: string, i: int)
      requires Valid() && p.Clean(this) && t == Body(p) + Delimiter() + rest && |Head(p)| <= i < |Body(p)|
      ensures !Literal(Delimiter()).MatchesAt(t, i)
    {
      InsideHasNone(Head(p), "\r\n" + p.Value(), rest, i);
    }

    lemma InsideHasNone(head: string, x: string, rest: string, i: int)
      requires Valid() && NoDelimiter(x) && |head| <= i < |head| + |x|
      ensures !Literal(Delimiter()).MatchesAt((head + x) + Delimiter() + rest, i)
    {
      var t, h, n := (head + x) + Delimiter() + rest, |head|, |head| + |x|;
      assert t[n] == Delimiter()[0] == '\r';
      if Literal(Delimiter()).MatchesAt(t, i) {
        MatchChars(t, i);
        assert t[h..n] == x;
        Slide(Literal(Delimiter()), t, h, n, i);
      }
    }

    /** What parses back to the parts. */
    ghost predicate Reads(t: string, parts: seq<Part>) {
      ParseParts(t) == Some(parts)
    }

    lemma NextIs(s: string, t: string, n: nat, p: Part)
      requires Strip(s, "\r\n") == Some(t) && FindFrom(Literal(Delimiter()), t, 0) == n && ParsePart(t[..n]) == Some(p)
      ensures n + |Delimiter()| <= |t| && ParseNext(s) == Some((p, t[n + |Delimiter()|..]))
    {
    }

    lemma ReadOne(s: string, p: Part, rest: string, ps: seq<Part>)
      requires !("--" <= s) && ParseNext(s) == Some((p, rest)) && Reads(rest, ps)
      ensures Reads(s, [p] + ps)
    {
    }

    lemma PartComesBack(p: Part, rest: string, ps: seq<Part>)
      requires Valid() && p.Clean(this) && Reads(rest, ps)
      ensures Reads("\r\n" + (Body(p) + Delimiter() + rest), [p] + ps)
    {
      var t := Body(p) + Delimiter() + rest;
      DelimiterIsFound(p, rest);
      assert t[..|Body(p)|] == Body(p) && t[|Body(p)| + |Delimiter()|..] == rest;
      match p {
        case FieldPart(f) => FieldComesBack(f);
        case FilePart(f) => FileComesBack(f);
      }
      StripFinds("\r\n", t);
      NextIs("\r\n" + t, t, |Body(p)|, p);
      assert ("\r\n" + t)[0] == '\r';
      ReadOne("\r\n" + t, p, rest, ps);
    }

    lemma AfterDelimiterOfCons(p: Part, ps: seq<Part>)
      ensures AfterDelimiter([p] + ps) == "\r\n" + (Body(p) + Delimiter() + AfterDelimiter(ps))
    {
      assert ([p] + ps)[1..] == ps;
    }

    lemma CloseReads()
      ensures Reads("--\r\n", [])
    {
      assert "--" <= "--\r\n";
    }

    lemma {:induction false} PartsComeBack(parts: seq<Part>)
      requires Valid() && forall p :: p in parts ==> p.Clean(this)
      ensures Reads(AfterDelimiter(parts), parts)
      decreases |parts|
    {
      if parts == [] {
        CloseReads();
      } else {
        var p, ps := parts[0], parts[1..];
        PartsComeBack(ps);
        PartComesBack(p, AfterDelimiter(ps), ps);
        AfterDelimiterOfCons(p, ps);
        assert [p] + ps == parts;
      }
    }

    // ----- and only that -----

    lemma SuffixHasNoDelimiter(t: string, a: string, b: string)
      requires t == a + b && NoDelimiter(t)
      ensures NoDelimiter(b)
    {
      forall i | 0 <= i < |b| ensures !Literal(Delimiter()).MatchesAt(b, i) {
        if i + |Delimiter()| <= |b| {
          assert t[|a|..|t|] == b;
          Slide(Literal(Delimiter()), t, |a|, |t|, |a| + i);
        }
      }
    }

    lemma PrefixHasNoDelimiter(t: string, n: nat)
      requires n <= |t| && forall i :: 0 <= i < n ==> !Literal(Delimiter()).MatchesAt(t, i)
      ensures NoDelimiter(t[..n])
    {
      forall i | 0 <= i < n ensures !Literal(Delimiter()).MatchesAt(t[..n], i) {
        if i + |Delimiter()| <= n {
          Slide(Literal(Delimiter()), t, 0, n, i);
        }
      }
    }

    /** Names are one quoted line; the value ends the text, after a line break. */
    lemma ParsedPartIsClean(t: string)
      requires NoDelimiter(t) && ParsePart(t).Some?
      ensures ParsePart(t).value.Clean(this)
    {
      var t1 := Strip(t, disposition).value;
      var (name, t2) := Quoted(t1).value;
      UntilSplits(t1, '\"');
      assert t == disposition + t1;
      var front := disposition + name + ['\"'];
      assert t == front + t2;
      SuffixHasNoDelimiter(t, front, t2);
      match Strip(t2, "\r\n\r\n") {
        case Some(v) =>
          assert t2 == "\r\n" + ("\r\n" + v);
          SuffixHasNoDelimiter(t2, "\r\n", "\r\n" + v);
        case None => ParsedFileIsClean(name, t2);
      }
    }

    lemma ParsedFileIsClean(name: string, t: string)
      requires CleanName(name) && NoDelimiter(t) && ParseFile(name, t).Some?
      ensures ParseFile(name, t).value.Clean(this)
    {
      var t1 := Strip(t, filename).value;
      var (fname, t2) := Quoted(t1).value;
      var t3 := Strip(t2, "\r\n" + typeLabel).value;
      var (ct, t4) := Until(t3, '\r').value;
      var v := Strip(t4, "\n\r\n").value;
      UntilSplits(t1, '\"');
      UntilSplits(t3, '\r');
      assert t == filename + t1;
      assert t2 == ("\r\n" + typeLabel) + t3;
      assert t4 == "\n" + ("\r\n" + v);
      SuffixHasNoDelimiter(t, filename, t1);
      SuffixHasNoDelimiter(t1, fname + ['\"'], t2);
      SuffixHasNoDelimiter(t2, "\r\n" + typeLabel, t3);
      SuffixHasNoDelimiter(t3, ct + ['\r'], t4);
      SuffixHasNoDelimiter(t4, "\n", "\r\n" + v);
    }

    lemma {:induction false} ParsedPartsAreClean(t: string)
      ensures ParseParts(t).Some? ==> forall p :: p in ParseParts(t).value ==> p.Clean(this)
      decreases |t|
    {
      if ParseParts(t).Some? && !("--" <= t) {
        var (p, rest) := ParseNext(t).value;
        ParsedNextIsClean(t);
        ParsedPartsAreClean(rest);
        assert ParseParts(t).value == [p] + ParseParts(rest).value;
      }
    }

    lemma ParsedNextIsClean(t: string)
      requires ParseNext(t).Some?
      ensures ParseNext(t).value.0.Clean(this)
    {
      var t1 := Strip(t, "\r\n").value;
      var i := FindFrom(Literal(Delimiter()), t1, 0);
      PrefixHasNoDelimiter(t1, i);
      ParsedPartIsClean(t1[..i]);
    }

    lemma ListsAreClean(parts: seq<Part>)
      requires forall p :: p in parts ==> p.Clean(this)
      ensures Clean(FieldsOf(parts), FilesOf(parts))
    {
      forall p | p in Parts(FieldsOf(parts), FilesOf(parts)) ensures p.Clean(this) {
        ListedWasPart(parts, p);
      }
    }

    // ----- the results -----

    /** The parser recovers the exact lists from the encoded body if and only if no
        name or filename has a quote or line break and no value a boundary line. */
    lemma RoundTrip(fields: seq<Field>, files: seq<File>)
      requires Valid()
      ensures Decode(Encode(fields, files)) == Some((fields, files)) <==> Clean(fields, files)
    {
      var parts := Parts(fields, files);
      StripFinds(DashBoundary(), AfterDelimiter(parts));
      if Clean(fields, files) {
        PartsComeBack(parts);
        ListsComeBack(fields, files);
      }
      if Decode(Encode(fields, files)) == Some((fields, files)) {
        ParsedPartsAreClean(AfterDelimiter(parts));
        ListsAreClean(ParseParts(AfterDelimiter(parts)).value);
      }
    }

    lemma BoundaryIsRead()
      ensures BoundaryOf(ContentType()) == Some(boundary)
    {
      var media, parameters := "multipart/form-data", " boundary=" + boundary;
      assert ContentType() == media + [';'] + parameters;
      UntilFinds(media, ';', parameters);
      StripFinds(" boundary=", boundary);
    }

    /** Read with the boundary of the content type sent along, the message comes back. */
    lemma MessageComesBack(fields: seq<Field>, files: seq<File>)
      requires Valid()
      ensures Clean(fields, files) <==> DecodeMessage(ContentType(), Encode(fields, files)) == Some((fields, files))
    {
      BoundaryIsRead();
      RoundTrip(fields, files);
    }

    /** So different clean lists never encode to the same body. */
    lemma EncodingIsInjective(f1: seq<Field>, g1: seq<File>, f2: seq<Field>, g2: seq<File>)
      requires Valid() && Clean(f1, g1) && Clean(f2, g2)
      requires Encode(f1, g1) == Encode(f2, g2)
      ensures f1 == f2 && g1 == g2
    {
      RoundTrip(f1, g1);
      RoundTrip(f2, g2);
    }

    /** Unclean ones can: a quote in a name lets the border between name and file
        name float ... */
    lemma QuotedNamesCollide(a: string, b: string, c: string, v: string)
      requires guess(c) == guess(b + "\"" + filename + c)
      ensures Encode([], [File(a + "\"" + filename + b, c, v)]) == Encode([], [File(a, b + "\"" + filename + c, v)])
    {
      var f1, f2 := File(a + "\"" + filename + b, c, v), File(a, b + "\"" + filename + c, v);
      SameHead(disposition, a, b, filename, c, "\r\n", typeLabel + guess(c));
      HeadOf(f1);
      HeadOf(f2);
      OnePart(FilePart(f1));
      OnePart(FilePart(f2));
      assert Parts([], [f1]) == [FilePart(f1)] && Parts([], [f2]) == [FilePart(f2)];
    }

    lemma HeadOf(f: File)
      ensures Head(FilePart(f)) == disposition + f.name + "\"" + filename + f.filename + "\"" + "\r\n"
                                   + (typeLabel + guess(f.filename)) + "\r\n"
    {
      var h := disposition + f.name + "\"" + filename + f.filename + "\"" + "\r\n";
      assert (h + typeLabel) + guess(f.filename) == h + (typeLabel + guess(f.filename));
    }

    /** ... and a boundary line in a value makes one field of two. */
    lemma BoundariesInValuesCollide(a: string, v: string, f: Field)
      ensures Encode([Field(a, v + Delimiter() + ("\r\n" + Body(FieldPart(f))))], []) == Encode([Field(a, v), f], [])
    {
      var p, q := FieldPart(Field(a, v)), FieldPart(f);
      var pq := FieldPart(Field(a, v + Delimiter() + ("\r\n" + Body(q))));
      assert Parts([pq.field], []) == [pq] && Parts([p.field, f], []) == [p, q];
      assert [p, q][1..] == [q];
      OnePart(pq);
      OnePart(q);
      TwoFields(Head(p), v, Delimiter(), Body(q), "--\r\n");
    }

    lemma OnePart(p: Part)
      ensures AfterDelimiter([p]) == "\r\n" + (Body(p) + Delimiter() + "--\r\n")
    {
      assert [p][1..] == [];
    }

    // ----- the encoder as written: a list of lines joined by CRLF -----

    /** Each line followed by CRLF. */
    function Closed(lines: seq<string>): string {
      if lines == [] then "" else Closed(lines[..|lines| - 1]) + lines[|lines| - 1] + "\r\n"
    }

    lemma ClosedSnoc(lines: seq<string>, l: string)
      ensures Closed(lines + [l]) == Closed(lines) + l + "\r\n"
    {
      assert (lines + [l])[..|lines|] == lines;
    }

    /** A part as the encoder writes it, from one delimiter line to the next. */
    function Spelled(p: Part): string {
      DashBoundary() + "\r\n" + Body(p) + "\r\n"
    }

    function Texts(parts: seq<Part>): seq<string> {
      seq(|parts|, i requires 0 <= i < |parts| => Spelled(parts[i]))
    }

    /** The first n parts. */
    function SpelledTo(parts: seq<Part>, n: nat): string
      requires n <= |parts|
    {
      Front(Texts(parts), n)
    }

    /** The four lines of a field. */
    lemma FieldLines(lines: seq<string>, f: Field)
      ensures Closed(lines + [DashBoundary()] + [disposition + f.name + "\""] + [""] + [f.value])
              == Closed(lines) + Spelled(FieldPart(f))
    {
      var h := disposition + f.name + "\"";
      ClosedSnoc(lines, DashBoundary());
      ClosedSnoc(lines + [DashBoundary()], h);
      ClosedSnoc(lines + [DashBoundary()] + [h], "");
      ClosedSnoc(lines + [DashBoundary()] + [h] + [""], f.value);
      FourLines(Closed(lines), DashBoundary(), h, f.value, "\r\n");
    }

    /** The five lines of a file. */
    lemma FileLines(lines: seq<string>, f: File)
      ensures Closed(lines + [DashBoundary()] + [disposition + f.name + "\"" + filename + f.filename + "\""]
                     + [typeLabel + guess(f.filename)] + [""] + [f.value])
              == Closed(lines) + Spelled(FilePart(f))
    {
      var h, t := disposition + f.name + "\"" + filename + f.filename + "\"", typeLabel + guess(f.filename);
      ClosedSnoc(lines, DashBoundary());
      ClosedSnoc(lines + [DashBoundary()], h);
      ClosedSnoc(lines + [DashBoundary()] + [h], t);
      ClosedSnoc(lines + [DashBoundary()] + [h] + [t], "");
      ClosedSnoc(lines + [DashBoundary()] + [h] + [t] + [""], f.value);
      HeadOf(f);
      FiveLines(Closed(lines), DashBoundary(), h, t, f.value, "\r\n");
    }

    /** The lines and the grammar spell the same body. */
    lemma {:induction false} LinesSpell(parts: seq<Part>, n: nat)
      requires n <= |parts|
      ensures SpelledTo(parts, n) + (DashBoundary() + AfterDelimiter(parts[n..]))
              == DashBoundary() + AfterDelimiter(parts)
      decreases n
    {
      if n == 0 {
        assert parts[0..] == parts;
      } else {
        var p, rest := parts[n - 1], parts[n..];
        assert parts[n - 1..] == [p] + rest;
        AfterDelimiterOfCons(p, rest);
        LinesSpell(parts, n - 1);
        OneMoreDelimiter(SpelledTo(parts, n - 1), DashBoundary(), Body(p), AfterDelimiter(rest), "\r\n");
      }
    }

    function ContentType(): string {
      "multipart/form-data; boundary=" + boundary
    }

    /** The four lines of a field, the five of a file. */
    function PartLines(p: Part): seq<string> {
      match p
      case FieldPart(f) => [DashBoundary(), disposition + f.name + "\"", "", f.value]
      case FilePart(f) =>
        [DashBoundary(), disposition + f.name + "\"" + filename + f.filename + "\"", typeLabel + guess(f.filename), "", f.value]
    }

    function LinesOf(parts: seq<Part>): seq<seq<string>> {
      seq(|parts|, i requires 0 <= i < |parts| => PartLines(parts[i]))
    }

    /** Written after any lines, these spell the text. */
    ghost predicate ClosesTo(lines: seq<string>, text: string) {
      forall before: seq<string> :: Closed(before + lines) == Closed(before) + text
    }

    lemma {:induction false} FrontCloses(lists: seq<seq<string>>, texts: seq<string>, n: nat)
      requires n <= |lists| == |texts| && forall i :: 0 <= i < |lists| ==> ClosesTo(lists[i], texts[i])
      ensures Closed(Front(lists, n)) == Front(texts, n)
      decreases n
    {
      if n > 0 {
        FrontCloses(lists, texts, n - 1);
        assert ClosesTo(lists[n - 1], texts[n - 1]);
      }
    }

    lemma LinesClose(parts: seq<Part>)
      ensures Closed(Front(LinesOf(parts), |parts|)) == SpelledTo(parts, |parts|)
    {
      forall i | 0 <= i < |parts| ensures ClosesTo(LinesOf(parts)[i], Texts(parts)[i]) {
        PartClosesTo(parts[i]);
      }
      FrontCloses(LinesOf(parts), Texts(parts), |parts|);
    }

    lemma PartClosesTo(p: Part)
      ensures ClosesTo(PartLines(p), Spelled(p))
    {
      forall before: seq<string> ensures Closed(before + PartLines(p)) == Closed(before) + Spelled(p) {
        PartCloses(before, p);
      }
    }

    lemma PartCloses(lines: seq<string>, p: Part)
      ensures Closed(lines + PartLines(p)) == Closed(lines) + Spelled(p)
    {
      match p {
        case FieldPart(f) =>
          FieldLines(lines, f);
          FourMore(lines, DashBoundary(), disposition + f.name + "\"", "", f.value);
        case FilePart(f) =>
          var h, t := disposition + f.name + "\"" + filename + f.filename + "\"", typeLabel + guess(f.filename);
          FileLines(lines, f);
          FourMore(lines, DashBoundary(), h, t, "");
          assert lines + [DashBoundary(), h, t, ""] + [f.value] == lines + [DashBoundary(), h, t, "", f.value];
      }
    }

    lemma FourMore(lines: seq<string>, a: string, b: string, c: string, d: string)
      ensures lines + [a] + [b] + [c] + [d] == lines + [a, b, c, d]
    {
    }

    /** The body of the first loop. */
    method AppendField(before: seq<string>, f: Field, ghost added: seq<string>) returns (lines: seq<string>)
      requires added == PartLines(FieldPart(f))
      ensures lines == before + added
    {
      lines := before + [DashBoundary()];
      lines := lines + [disposition + f.name + "\""];
      lines := lines + [""];
      lines := lines + [f.value];
    }

    /** The body of the second loop. */
    method AppendFile(before: seq<string>, f: File, ghost added: seq<string>) returns (lines: seq<string>)
      requires added == PartLines(FilePart(f))
      ensures lines == before + added
    {
      lines := before + [DashBoundary()];
      lines := lines + [disposition + f.name + "\"" + filename + f.filename + "\""];
      lines := lines + [typeLabel + guess(f.filename)];
      lines := lines + [""];
      lines := lines + [f.value];
    }

    method AppendFields(fields: seq<Field>, ghost lists: seq<seq<string>>) returns (lines: seq<string>)
      requires |fields| <= |lists| && forall i :: 0 <= i < |fields| ==> lists[i] == PartLines(FieldPart(fields[i]))
      ensures lines == Front(lists, |fields|)
    {
      lines := [];
      for i := 0 to |fields|
        invariant lines == Front(lists, i)
      {
        lines := AppendField(lines, fields[i], lists[i]);
      }
    }

    method AppendFiles(before: seq<string>, files: seq<File>, ghost lists: seq<seq<string>>, ghost n: nat)
      returns (lines: seq<string>)
      requires n + |files| <= |lists| && forall i :: 0 <= i < |files| ==> lists[n + i] == PartLines(FilePart(files[i]))
      requires before == Front(lists, n)
      ensures lines == Front(lists, n + |files|)
    {
      lines := before;
      for i := 0 to |files|
        invariant lines == Front(lists, n + i)
      {
        lines := AppendFile(lines, files[i], lists[n + i]);
      }
    }

    method EncodeMultipartFormData(fields: seq<Field>, files: seq<File>) returns (contentType: string, body: string)
      ensures contentType == ContentType()
      ensures body == Encode(fields, files)
    {
      ghost var parts := Parts(fields, files);
      var lines := AppendFields(fields, LinesOf(parts));
      lines := AppendFiles(lines, files, LinesOf(parts), |fields|);
      Finished(parts, lines);
      body := Join(lines + [DashBoundary() + "--"] + [""]);
      contentType := ContentType();
    }

    lemma Finished(parts: seq<Part>, lines: seq<string>)
      requires lines == Front(LinesOf(parts), |parts|)
      ensures Join(lines + [DashBoundary() + "--"] + [""]) == DashBoundary() + AfterDelimiter(parts)
    {
      assert parts[|parts|..] == [];
      LinesClose(parts);
      LinesSpell(parts, |parts|);
      ClosedSnoc(lines, DashBoundary() + "--");
      JoinCloses(lines + [DashBoundary() + "--"]);
      LastLine(Closed(lines), DashBoundary());
    }

    lemma {:induction false} JoinCloses(lines: seq<string>)
      ensures Join(lines + [""]) == Closed(lines)
      decreases |lines|
    {
      if lines != [] {
        var front, l := lines[..|lines| - 1], lines[|lines| - 1];
        JoinCloses(front);
        assert (lines + [""])[..|lines|] == lines == front + [l];
        JoinSnoc(front, l);
      }
    }

    lemma JoinSnoc(front: seq<string>, l: string)
      ensures Join(front + [l]) == Join(front + [""]) + l
    {
      assert (front + [l])[..|front|] == front == (front + [""])[..|front|];
    }
  }

  lemma {:induction false} UntilFinds(s: string, c: char, rest: string)
    requires c !in s
    ensures Until(s + [c] + rest, c) == Some((s, rest))
    decreases |s|
  {
    var t := s + [c] + rest;
    if s == "" {
      assert t[1..] == rest;
    } else {
      assert t[1..] == s[1..] + [c] + rest;
      UntilFinds(s[1..], c, rest);
      assert [s[0]] + s[1..] == s;
    }
  }

  lemma {:induction false} UntilSplits(t: string, c: char)
    ensures Until(t, c).Some? ==> t == Until(t, c).value.0 + [c] + Until(t, c).value.1
    decreases |t|
  {
    if t != "" && t[0] != c {
      UntilSplits(t[1..], c);
      if Until(t, c).Some? {
        var (a, b) := Until(t[1..], c).value;
        assert t == [t[0]] + (a + [c] + b) == ([t[0]] + a) + [c] + b;
      }
    }
  }

  lemma StripFinds(prefix: string, rest: string)
    ensures Strip(prefix + rest, prefix) == Some(rest)
  {
    assert (prefix + rest)[|prefix|..] == rest;
  }

  /** The first n lists, one after the other. */
  function Front<T>(lists: seq<seq<T>>, n: nat): seq<T>
    requires n <= |lists|
  {
    if n == 0 then [] else Front(lists, n - 1) + lists[n - 1]
  }

  // ----- rearranging concatenations -----

  lemma Regroup(h: string, v: string, d: string, r: string)
    ensures (h + ("\r\n" + v)) + d + r == h + ("\r\n" + (v + d + r))
  {
  }

  lemma TwoLines(l1: string, a: string, b: string, more: string)
    ensures l1 + "\r\n" + a + b + "\r\n" + ("\r\n" + more) == l1 + ("\r\n" + ((a + b) + ("\r\n\r\n" + more)))
  {
  }

  lemma FileBody(d: string, name: string, f: string, fname: string, l: string, g: string, v: string)
    ensures d + name + "\"" + f + fname + "\"" + "\r\n" + l + g + "\r\n" + ("\r\n" + v)
            == d + (name + ['\"'] + (f + (fname + ['\"'] + (("\r\n" + l) + (g + ['\r'] + ("\n\r\n" + v))))))
  {
  }

  lemma SameHead(d: string, a: string, b: string, f: string, c: string, n: string, t: string)
    ensures d + (a + "\"" + f + b) + "\"" + f + c + "\"" + n + t + n
            == d + a + "\"" + f + (b + "\"" + f + c) + "\"" + n + t + n
  {
  }

  lemma TwoFields(h: string, v: string, d: string, b: string, e: string)
    ensures h + ("\r\n" + (v + d + ("\r\n" + b))) + d + e == h + ("\r\n" + v) + d + ("\r\n" + (b + d + e))
  {
  }

  lemma FourLines(c: string, d: string, h: string, v: string, n: string)
    ensures c + d + n + h + n + "" + n + v + n == c + (d + n + (h + n + (n + v)) + n)
  {
  }

  lemma FiveLines(c: string, d: string, h: string, t: string, v: string, n: string)
    ensures c + d + n + h + n + t + n + "" + n + v + n == c + (d + n + (h + n + t + n + (n + v)) + n)
  {
  }

  lemma OneMoreDelimiter(c: string, d: string, b: string, r: string, n: string)
    ensures (c + (d + n + b + n)) + (d + r) == c + (d + (n + (b + (n + d) + r)))
  {
  }

  lemma LastLine(c: string, d: string)
    ensures c + (d + "--") + "\r\n" == c + (d + "--\r\n")
  {
  }

  lemma {:induction false} ListsComeBack(fields: seq<Field>, files: seq<File>)
    ensures FieldsOf(Parts(fields, files)) == fields && FilesOf(Parts(fields, files)) == files
    decreases |fields| + |files|
  {
    var ps := Parts(fields, files);
    if fields != [] {
      assert ps[1..] == Parts(fields[1..], files);
      ListsComeBack(fields[1..], files);
    } else if files != [] {
      assert ps[1..] == Parts([], files[1..]);
      ListsComeBack([], files[1..]);
    }
  }

  lemma ListedWasPart(parts: seq<Part>, p: Part)
    requires p in Parts(FieldsOf(parts), FilesOf(parts))
    ensures p in parts
  {
    if p.FieldPart? {
      FieldWasPart(parts, p.field);
    } else {
      FileWasPart(parts, p.file);
    }
  }

  lemma {:induction false} FieldWasPart(parts: seq<Part>, f: Field)
    requires f in FieldsOf(parts)
    ensures FieldPart(f) in parts
  {
    if parts[0] != FieldPart(f) {
      FieldWasPart(parts[1..], f);
    }
  }

  lemma {:induction false} FileWasPart(parts: seq<Part>, f: File)
    requires f in FilesOf(parts)
    ensures FilePart(f) in parts
  {
    if parts[0] != FilePart(f) {
      FileWasPart(parts[1..], f);
    }
  }

  // ----- the wording the upload script uses -----

  const BOUNDARY := "-M-A-G-I-C---B-O-U-N-D-A-R-Y-"
  const DISPOSITION := "Content-Disposition: form-data; name=\""
  const FILENAME := "; filename=\""
  const CONTENT_TYPE := "Content-Type: "

  function Upload(guess: string -> string): Form {
    Form(BOUNDARY, DISPOSITION, FILENAME, CONTENT_TYPE, guess)
  }

  lemma BoundaryIsOneLine()
    ensures '\r' !in BOUNDARY
  {
  }

  lemma DispositionIsOneLine()
    ensures '\r' !in DISPOSITION
  {
  }

  lemma LabelsAreOneLine()
    ensures '\r' !in FILENAME && '\r' !in CONTENT_TYPE && CONTENT_TYPE[0] == 'C'
  {
  }

  /** The results above hold for the upload script. */
  lemma UploadIsValid(guess: string -> string)
    requires forall f :: '\r' !in guess(f)
    ensures Upload(guess).Valid()
  {
    BoundaryIsOneLine();
    DispositionIsOneLine();
    LabelsAreOneLine();
    WordingSuffices(BOUNDARY, DISPOSITION, FILENAME, CONTENT_TYPE, guess);
  }

  lemma WordingSuffices(b: string, d: string, f: string, c: string, guess: string -> string)
    requires '\r' !in b && '\r' !in d && '\r' !in f && f != "" && '\r' !in c && c != "" && c[0] != '-'
    requires forall x :: '\r' !in guess(x)
    ensures Form(b, d, f, c, guess).Valid()
  {
  }
}
