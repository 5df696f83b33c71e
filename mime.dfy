/**
 * How `SMTPSession.send` assembles a message: a `multipart/mixed` container
 * with the From/To/Subject headers and the non-empty extra headers, one
 * `multipart/alternative` part holding the plain and HTML bodies, and one
 * part per attachment. The message is kept as headers and parts; its
 * serialised text is not modelled.
 */
module Mime {
  import opened Wrappers

  datatype Header = Header(name: string, value: Option<string>)

  /** A `text/<subtype>` body part. */
  datatype TextPart = TextPart(subtype: string, body: string)

  datatype Part =
    | Alternative(bodies: seq<TextPart>)
    | Attachment(mainType: string, subType: string, payload: seq<bv8>, filename: string)

  datatype Message = Message(headers: seq<Header>, parts: seq<Part>)

  /** One attachment as given to `send`: a dictionary whose keys
      `filename`, `data` and `mime` may each be missing (`None`). */
  datatype AttachmentSpec = AttachmentSpec(filename: Option<string>, data: Option<seq<bv8>>, mime: Option<string>)

  const DefaultMime := "application/octet-stream"
  const DefaultFilename := "attachment"

  /** Python truthiness of an optional string: present and non-empty. */
  predicate Truthy(s: Option<string>) {
    s.Some? && s.value != ""
  }

  /** The index of the first occurrence of `c` in `s`. */
  function IndexOf(s: string, c: char): (k: nat)
    requires c in s
    ensures k < |s| && s[k] == c && c !in s[..k]
  {
    if s[0] == c then 0 else 1 + IndexOf(s[1..], c)
  }

  /** `mime.split("/", 1)` when the type holds a `/`, and
      `("application", "octet-stream")` otherwise. */
  function SplitMime(mime: string): (r: (string, string))
    ensures '/' in mime ==> '/' !in r.0 && |r.0| + 1 + |r.1| == |mime|
    ensures '/' !in mime ==> r == ("application", "octet-stream")
  {
    if '/' in mime then
      var k := IndexOf(mime, '/');
      (mime[..k], mime[k + 1..])
    else ("application", "octet-stream")
  }

  /** A type with a `/` splits into the part before its first `/` and the
      rest, which join back into the type; any other type falls back to
      `application/octet-stream`. */
  lemma SplitMimeSpec(mime: string)
    ensures var r := SplitMime(mime);
      && ('/' in mime ==> '/' !in r.0 && r.0 + "/" + r.1 == mime)
      && ('/' !in mime ==> r == ("application", "octet-stream"))
  {
    if '/' in mime {
      var k := IndexOf(mime, '/');
      assert mime == mime[..k] + "/" + mime[k + 1..];
    }
  }

  /** Where the first `/` of a joined type lies. */
  lemma {:induction false} IndexOfJoin(main: string, sub: string)
    requires '/' !in main
    ensures IndexOf(main + "/" + sub, '/') == |main|
  {
    if main != [] {
      assert (main + "/" + sub)[1..] == main[1..] + "/" + sub;
      IndexOfJoin(main[1..], sub);
    }
  }

  /** Splitting a joined type gives back its two halves. */
  lemma SplitMimeJoin(main: string, sub: string)
    requires '/' !in main
    ensures SplitMime(main + "/" + sub) == (main, sub)
  {
    var m := main + "/" + sub;
    assert m[|main|] == '/';
    IndexOfJoin(main, sub);
    assert m[..|main|] == main;
    assert m[|main| + 1..] == sub;
  }

  /** `part.get("mime", DEFAULT) or DEFAULT`. */
  function MimeOf(a: AttachmentSpec): (m: string)
    ensures a.mime == None || a.mime == Some("") ==> m == DefaultMime
    ensures Truthy(a.mime) ==> m == a.mime.value
  {
    if Truthy(a.mime) then a.mime.value else DefaultMime
  }

  /** The attachment part built for one attachment. A missing or empty
      type falls back to the default, whose split is written out here
      (`AttachmentPartSplitsMimeOf` shows it is the split of `MimeOf(a)`). */
  function AttachmentPart(a: AttachmentSpec): (p: Part)
    ensures p.Attachment? && '/' !in p.mainType
    ensures a.filename.None? ==> p.filename == DefaultFilename
    ensures a.data.None? ==> p.payload == []
  {
    var split := if Truthy(a.mime) then SplitMime(a.mime.value) else ("application", "octet-stream");
    Attachment(split.0, split.1, a.data.GetOr([]), a.filename.GetOr(DefaultFilename))
  }

  /** The type of an attachment part is the split of `part.get("mime") or
      DEFAULT`, as `send` computes it. */
  lemma AttachmentPartSplitsMimeOf(a: AttachmentSpec)
    ensures (AttachmentPart(a).mainType, AttachmentPart(a).subType) == SplitMime(MimeOf(a))
  {
    if !Truthy(a.mime) {
      DefaultMimeSplits();
    }
  }

  /** The file name and payload of an attachment part: the name defaults
      only when it is missing, the payload is the data or nothing. */
  lemma AttachmentPartFields(a: AttachmentSpec)
    ensures AttachmentPart(a).Attachment? && AttachmentPart(a).payload == a.data.GetOr([])
    ensures a.filename == None ==> AttachmentPart(a).filename == DefaultFilename
    ensures a.filename.Some? ==> AttachmentPart(a).filename == a.filename.value
  {
  }

  /** The type of an attachment part: a missing or empty type, or one
      without a `/`, becomes `application/octet-stream`; a type with a `/`
      splits at its first `/`. */
  lemma AttachmentPartType(a: AttachmentSpec)
    ensures var p := AttachmentPart(a);
      && (!Truthy(a.mime) || '/' !in a.mime.value ==> p.mainType == "application" && p.subType == "octet-stream")
      && (Truthy(a.mime) && '/' in a.mime.value ==> '/' !in p.mainType && p.mainType + "/" + p.subType == a.mime.value)
  {
    var m := MimeOf(a);
    SplitMimeSpec(m);
    if !Truthy(a.mime) {
      DefaultMimeSplits();
    }
  }

  /** The default type splits into `application` and `octet-stream`. */
  lemma DefaultMimeSplits()
    ensures SplitMime(DefaultMime) == ("application", "octet-stream")
  {
    assert DefaultMime == "application" + "/" + "octet-stream";
    SplitMimeJoin("application", "octet-stream");
  }

  /** The attachment parts, one per attachment, in order. */
  function AttachmentParts(atts: seq<AttachmentSpec>): (r: seq<Part>)
    ensures |r| == |atts|
    ensures forall k :: 0 <= k < |atts| ==> r[k] == AttachmentPart(atts[k])
  {
    seq(|atts|, k requires 0 <= k < |atts| => AttachmentPart(atts[k]))
  }

  /** The bodies of the alternative part: plain if the text body is
      truthy, then HTML if the HTML body is truthy. */
  function Bodies(text: Option<string>, html: Option<string>): (r: seq<TextPart>)
    ensures |r| == (if Truthy(text) then 1 else 0) + (if Truthy(html) then 1 else 0)
    ensures Truthy(text) ==> r[0] == TextPart("plain", text.value)
    ensures Truthy(html) ==> r[|r| - 1] == TextPart("html", html.value)
  {
    (if Truthy(text) then [TextPart("plain", text.value)] else []) +
    (if Truthy(html) then [TextPart("html", html.value)] else [])
  }

  /** The extra headers that are set: those with a non-empty value, in the
      order given. */
  function ExtraHeaders(hs: seq<(string, string)>): (r: seq<Header>)
    ensures |r| <= |hs|
    ensures forall h :: h in r ==> h.value.Some? && h.value.value != ""
  {
    if hs == [] then []
    else
      var (k, v) := hs[|hs| - 1];
      ExtraHeaders(hs[..|hs| - 1]) + (if v != "" then [Header(k, Some(v))] else [])
  }

  /** Filtering the extra headers keeps their order: it distributes over
      concatenation. */
  lemma {:induction false} ExtraHeadersAppend(a: seq<(string, string)>, b: seq<(string, string)>)
    ensures ExtraHeaders(a + b) == ExtraHeaders(a) + ExtraHeaders(b)
    decreases |b|
  {
    if b != [] {
      var b' := b[..|b| - 1];
      assert (a + b)[..|a + b| - 1] == a + b';
      assert (a + b)[|a + b| - 1] == b[|b| - 1];
      ExtraHeadersAppend(a, b');
    } else {
      assert a + b == a;
    }
  }

  /** A header is set exactly when it is given with a non-empty value. */
  lemma {:induction false} ExtraHeadersMembers(hs: seq<(string, string)>, k: string, v: string)
    ensures Header(k, Some(v)) in ExtraHeaders(hs) <==> (k, v) in hs && v != ""
  {
    if hs != [] {
      var init := hs[..|hs| - 1];
      var (k', v') := hs[|hs| - 1];
      ExtraHeadersMembers(init, k, v);
      assert hs == init + [(k', v')];
      assert (k, v) in hs <==> (k, v) in init || (k, v) == (k', v');
    }
  }

  /** The headers every message carries, in this order. */
  function StandardHeaders(from: string, to: string, subject: Option<string>): seq<Header> {
    [Header("From", Some(from)), Header("To", Some(to)), Header("Subject", subject)]
  }

  /** The message `send` builds: From, To and Subject, then the extra
      headers; the alternative part, then the attachment parts. */
  function ComposeMessage(from: string, to: string, subject: Option<string>,
                          html: Option<string>, text: Option<string>,
                          headers: seq<(string, string)>, atts: seq<AttachmentSpec>): (m: Message)
    ensures |m.headers| >= 3 && |m.parts| == 1 + |atts|
    ensures m.parts[0] == Alternative(Bodies(text, html))
  {
    Message(StandardHeaders(from, to, subject) + ExtraHeaders(headers),
            [Alternative(Bodies(text, html))] + AttachmentParts(atts))
  }

  /** Every composed message starts with From, To and Subject, and has no
      more headers than those and the extra ones. */
  lemma ComposeMessageHeaders(from: string, to: string, subject: Option<string>,
                              html: Option<string>, text: Option<string>,
                              headers: seq<(string, string)>, atts: seq<AttachmentSpec>)
    ensures var m := ComposeMessage(from, to, subject, html, text, headers, atts);
      3 <= |m.headers| <= 3 + |headers| && m.headers[..3] == StandardHeaders(from, to, subject)
  {
    var m := ComposeMessage(from, to, subject, html, text, headers, atts);
    assert m.headers[..3] == StandardHeaders(from, to, subject);
  }

  /** Every composed message has the alternative part first and then the
      attachment parts: one per attachment, in order. */
  lemma ComposeMessageParts(from: string, to: string, subject: Option<string>,
                            html: Option<string>, text: Option<string>,
                            headers: seq<(string, string)>, atts: seq<AttachmentSpec>)
    ensures var m := ComposeMessage(from, to, subject, html, text, headers, atts);
      && |m.parts| == 1 + |atts|
      && m.parts[0] == Alternative(Bodies(text, html))
      && m.parts[1..] == AttachmentParts(atts)
  {
    var ps := AttachmentParts(atts);
    assert ([Alternative(Bodies(text, html))] + ps)[1..] == ps;
  }

  /** `send`'s header block: From, To and Subject, then each extra
      header whose value is non-empty, in the order given. */
  method SetHeaders(from: string, to: string, subject: Option<string>, headers: seq<(string, string)>)
    returns (hs: seq<Header>)
    ensures hs == StandardHeaders(from, to, subject) + ExtraHeaders(headers)
  {
    hs := StandardHeaders(from, to, subject);
    for i := 0 to |headers|
      invariant hs == StandardHeaders(from, to, subject) + ExtraHeaders(headers[..i])
    {
      assert headers[..i + 1][..i] == headers[..i];
      var (k, v) := headers[i];
      assert ExtraHeaders(headers[..i + 1])
          == ExtraHeaders(headers[..i]) + (if v != "" then [Header(k, Some(v))] else []);
      if v != "" {
        hs := hs + [Header(k, Some(v))];
      }
    }
    assert headers[..|headers|] == headers;
  }

  /** `send`'s attachment block: one part per attachment appended after
      the parts already attached. */
  method AttachFiles(parts0: seq<Part>, atts: seq<AttachmentSpec>) returns (parts: seq<Part>)
    ensures parts == parts0 + AttachmentParts(atts)
  {
    parts := parts0;
    assert atts[..0] == [];
    for i := 0 to |atts|
      invariant parts == parts0 + AttachmentParts(atts[..i])
    {
      var part := AttachmentPart(atts[i]);
      AttachmentPartsSnoc(atts, i);
      parts := parts + [part];
    }
    assert atts[..|atts|] == atts;
  }

  /** One more attachment adds one more part at the end. */
  lemma AttachmentPartsSnoc(atts: seq<AttachmentSpec>, i: nat)
    requires i < |atts|
    ensures AttachmentParts(atts[..i + 1]) == AttachmentParts(atts[..i]) + [AttachmentPart(atts[i])]
  {
    var l := AttachmentParts(atts[..i + 1]);
    var r := AttachmentParts(atts[..i]) + [AttachmentPart(atts[i])];
    assert |l| == |r|;
    forall k | 0 <= k < |l|
      ensures l[k] == r[k]
    {
      assert atts[..i + 1][k] == atts[k];
      assert l[k] == AttachmentPart(atts[k]);
      if k < i {
        var front := AttachmentParts(atts[..i]);
        assert r[k] == front[k];
        assert atts[..i][k] == atts[k];
      }
    }
  }

  /** `send`'s assembly of the message: the headers, then the alternative
      part, then one part per attachment. */
  method BuildMessage(from: string, to: string, subject: Option<string>,
                      html: Option<string>, text: Option<string>,
                      headers: seq<(string, string)>, atts: seq<AttachmentSpec>)
    returns (m: Message)
    ensures m == ComposeMessage(from, to, subject, html, text, headers, atts)
  {
    var hs := SetHeaders(from, to, subject, headers);
    var bodies := [];
    if Truthy(text) {
      bodies := bodies + [TextPart("plain", text.value)];
    }
    if Truthy(html) {
      bodies := bodies + [TextPart("html", html.value)];
    }
    assert bodies == Bodies(text, html);
    var parts := AttachFiles([Alternative(bodies)], atts);
    m := Message(hs, parts);
  }
}
