/** One coding of manifests that meets what is asked of JSON, SHA-256 and UTC
    times, so that what is proved of every such coding is said of something. */
module PlainCodec {
  import opened Basics
  import opened Manifest

  // ---------------------------------------------------------------------
  // Numbers in bytes: ones and a zero for each, a two at the end

  function Code(words: seq<nat>): Bytes
    decreases |words|, if words == [] then 0 else words[0]
  {
    if words == [] then [2]
    else if words[0] == 0 then [0] + Code(words[1..])
    else [1] + Code([words[0] - 1] + words[1..])
  }

  function Decode(content: Bytes): Option<seq<nat>> {
    if content == [] then None
    else if content[0] == 2 then Some([])
    else
      var rest := Decode(content[1..]);
      if rest.None? then None
      else if content[0] == 0 then Some([0] + rest.value)
      else if rest.value == [] then None
      else Some([rest.value[0] + 1] + rest.value[1..])
  }

  /** What is left to write after one byte. */
  function Next(words: seq<nat>): seq<nat>
    requires words != []
  {
    if words[0] == 0 then words[1..] else [words[0] - 1] + words[1..]
  }

  lemma CodeIs(words: seq<nat>, after: Bytes)
    requires words != []
    ensures Code(words) + after == [if words[0] == 0 then 0 else 1] + (Code(Next(words)) + after)
  {
  }

  lemma DecodeIs(byte: Byte, rest: Bytes, words: seq<nat>)
    requires byte < 2 && Decode(rest) == Some(words) && (byte == 1 ==> words != [])
    ensures Decode([byte] + rest) == Some(if byte == 0 then [0] + words else [words[0] + 1] + words[1..])
  {
    assert ([byte] + rest)[1..] == rest;
  }

  lemma {:induction false} Decoded(words: seq<nat>, after: Bytes)
    ensures Decode(Code(words) + after) == Some(words)
    decreases |words|, if words == [] then 0 else words[0]
  {
    if words != [] {
      Decoded(Next(words), after);
      CodeIs(words, after);
      DecodeIs(if words[0] == 0 then 0 else 1, Code(Next(words)) + after, Next(words));
      if words[0] == 0 {
        assert [0] + Next(words) == words;
      } else {
        assert [Next(words)[0] + 1] + Next(words)[1..] == words;
      }
    }
  }

  // ---------------------------------------------------------------------
  // Texts in numbers

  function Codes(text: string): seq<nat> {
    seq(|text|, i requires 0 <= i < |text| => text[i] as nat)
  }

  function TextOf(codes: seq<nat>): string {
    seq(|codes|, i requires 0 <= i < |codes| =>
      if codes[i] < 0xD800 || 0xE000 <= codes[i] < 0x11_0000 then codes[i] as char else ' ')
  }

  function Words(texts: seq<string>): seq<nat> {
    if texts == [] then [] else [|texts[0]|] + Codes(texts[0]) + Words(texts[1..])
  }

  function Texts(words: seq<nat>): seq<string>
    decreases |words|
  {
    if words == [] || |words| <= words[0] then []
    else [TextOf(words[1..words[0] + 1])] + Texts(words[words[0] + 1..])
  }

  lemma {:induction false} TextsBack(texts: seq<string>)
    ensures Texts(Words(texts)) == texts
  {
    if texts != [] {
      var words, n := Words(texts), |texts[0]|;
      TextsBack(texts[1..]);
      assert words[1..n + 1] == Codes(texts[0]) && words[n + 1..] == Words(texts[1..]);
      assert TextOf(Codes(texts[0])) == texts[0];
    }
  }

  // ---------------------------------------------------------------------
  // Documents in texts

  function SizeText(size: int): string {
    seq(if 0 <= size then 2 * size else -2 * size - 1, _ => 'x')
  }

  function SizeOf(text: string): int {
    if |text| % 2 == 0 then |text| / 2 else -((|text| + 1) / 2)
  }

  function MemberTexts(members: seq<Member>): seq<string> {
    if members == [] then []
    else [members[0].path, SizeText(members[0].size), members[0].sha256] + MemberTexts(members[1..])
  }

  function MembersOf(texts: seq<string>): seq<Member> {
    if |texts| < 3 then [] else [Member(texts[0], SizeOf(texts[1]), texts[2])] + MembersOf(texts[3..])
  }

  lemma {:induction false} MembersBack(members: seq<Member>)
    ensures MembersOf(MemberTexts(members)) == members
  {
    if members != [] {
      MembersBack(members[1..]);
      assert MemberTexts(members)[3..] == MemberTexts(members[1..]);
    }
  }

  function DocumentTexts(document: Document): seq<string> {
    var base := document.base;
    [if document.id.None? then "" else ['x'] + document.id.value, base.profile, base.created, base.identity.database,
     base.identity.objects, base.identity.proof, base.identity.source] + MemberTexts(base.members)
  }

  function DocumentOf(texts: seq<string>): Option<Document> {
    if |texts| < 7 then None
    else Some(Document(if texts[0] == "" then None else Some(texts[0][1..]),
                       Base(texts[1], texts[2], Identity(texts[3], texts[4], texts[5], texts[6]),
                            MembersOf(texts[7..]))))
  }

  lemma DocumentBack(document: Document)
    ensures DocumentOf(DocumentTexts(document)) == Some(document)
  {
    var texts := DocumentTexts(document);
    assert texts[7..] == MemberTexts(document.base.members);
    MembersBack(document.base.members);
    if document.id.Some? {
      assert texts[0][1..] == document.id.value;
    }
  }

  function Dump(document: Document): Bytes {
    Code(Words(DocumentTexts(document)))
  }

  function Parse(content: Bytes): Option<Document> {
    var words := Decode(content);
    if words.None? then None else DocumentOf(Texts(words.value))
  }

  lemma ParseDump(document: Document, after: Bytes)
    ensures Parse(Dump(document) + after) == Some(document)
  {
    Decoded(Words(DocumentTexts(document)), after);
    TextsBack(DocumentTexts(document));
    DocumentBack(document);
  }

  const PLAIN := Codec(Dump, Parse, _ => seq(SHA256_CHARACTERS, _ => '0'), time => Some(time))

  /** Such codings exist. */
  lemma PlainIsValid()
    ensures PLAIN.Valid()
  {
    forall document {:trigger PLAIN.dump(document)}
      ensures PLAIN.parse(PLAIN.dump(document)) == Some(document)
      ensures PLAIN.parse(PLAIN.dump(document) + NEWLINE) == Some(document)
    {
      ParseDump(document, []);
      assert Dump(document) + [] == Dump(document);
      ParseDump(document, NEWLINE);
    }
  }
}
