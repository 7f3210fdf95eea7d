/**
 The web application's QR payload builders (app.py): a vCard 3.0 contact,
 an iCalendar VEVENT and a `geo:` URI. Each is a Python f-string that
 inserts its fields verbatim: nothing is escaped, although vCard and
 iCalendar both require escaping of line breaks and separators in values.
 Each builder here is paired with a parser that reads the payload back the
 way a consumer splitting on line breaks (or on `,` and `?`) would, and the
 round-trip lemmas say exactly which field values survive.
 */
module Payloads {
  import opened Optional
  import opened Text

  datatype Contact = Contact(name: string, phone: string, email: string)
  datatype Event = Event(title: string, start: string, end: string, location: string, description: string)
  datatype Place = Place(latitude: string, longitude: string, name: string)

  /** Fields inserted into a payload contain no line break. */
  predicate NoBreaks(fields: seq<string>)
  {
    forall i | 0 <= i < |fields| :: '\n' !in fields[i]
  }

  function ContactFields(c: Contact): seq<string>
  {
    [c.name, c.phone, c.email]
  }

  function EventFields(e: Event): seq<string>
  {
    [e.title, e.start, e.end, e.location, e.description]
  }

  // ---------------------------------------------------------------- vCard

  /** The six content lines of the vCard, in order, fields inserted verbatim. */
  function VCardLines(c: Contact): seq<string>
  {
    ["BEGIN:VCARD", "VERSION:3.0", "N:" + c.name, "TEL:" + c.phone, "EMAIL:" + c.email, "END:VCARD"]
  }

  /**
   `generate_vcard_qr`'s payload: the f-string puts BEGIN, VERSION, N, TEL,
   EMAIL and END on consecutive lines, i.e. joins those six lines with `\n`.
   Reading it back line by line gives the six lines when no field holds a
   line break, and more than six lines otherwise.
   */
  function VCard(c: Contact): (r: string)
    ensures r == "BEGIN:VCARD\nVERSION:3.0\nN:" + c.name + "\nTEL:" + c.phone + "\nEMAIL:" + c.email + "\nEND:VCARD"
    ensures NoBreaks(ContactFields(c)) ==> Split(r) == VCardLines(c)
    ensures !NoBreaks(ContactFields(c)) ==> |Split(r)| > 6
  {
    var ls := VCardLines(c);
    VCardText(c);
    SplitOfJoin(ls);
    if NoBreaks(ContactFields(c)) then
      assert ContactFields(c)[0] == c.name && ContactFields(c)[1] == c.phone && ContactFields(c)[2] == c.email;
      assert '\n' !in ls[0] && '\n' !in ls[1] && '\n' !in ls[5];
      assert '\n' !in ls[2] && '\n' !in ls[3] && '\n' !in ls[4];
      Join(ls)
    else
      assert '\n' in ls[2] || '\n' in ls[3] || '\n' in ls[4];
      Join(ls)
  }

  /** The joined vCard lines are the f-string's text, field by field. */
  lemma VCardText(c: Contact)
    ensures Join(VCardLines(c)) == "BEGIN:VCARD\nVERSION:3.0\nN:" + c.name + "\nTEL:" + c.phone + "\nEMAIL:" + c.email + "\nEND:VCARD"
  {
    Join6("BEGIN:VCARD", "VERSION:3.0", "N:" + c.name, "TEL:" + c.phone, "EMAIL:" + c.email, "END:VCARD");
    assert "BEGIN:VCARD" + "\n" + "VERSION:3.0" + "\n" + "N:" == "BEGIN:VCARD\nVERSION:3.0\nN:";
    assert "\n" + "TEL:" == "\nTEL:";
    assert "\n" + "EMAIL:" == "\nEMAIL:";
    assert "\n" + "END:VCARD" == "\nEND:VCARD";
  }

  /** Reads a vCard payload line by line; `None` unless it has exactly the six expected lines. */
  function ParseVCard(s: string): (r: Option<Contact>)
    ensures r.Some? ==> |Split(s)| == 6
  {
    var ls := Split(s);
    if |ls| == 6 && ls[0] == "BEGIN:VCARD" && ls[1] == "VERSION:3.0"
       && StartsWith(ls[2], "N:") && StartsWith(ls[3], "TEL:") && StartsWith(ls[4], "EMAIL:")
       && ls[5] == "END:VCARD"
    then Some(Contact(ls[2][2..], ls[3][4..], ls[4][6..]))
    else None
  }

  /**
   The vCard reads back as the contact exactly when no field holds a line
   break; a field with a line break makes the payload unreadable, because
   nothing is escaped.
   */
  lemma VCardRoundTrip(c: Contact)
    ensures ParseVCard(VCard(c)) == Some(c) <==> NoBreaks(ContactFields(c))
    ensures ParseVCard(VCard(c)).Some? <==> NoBreaks(ContactFields(c))
  {
    var fs := ContactFields(c);
    if NoBreaks(fs) {
      var ls := VCardLines(c);
      assert ls[2][2..] == c.name && ls[3][4..] == c.phone && ls[4][6..] == c.email;
    }
  }

  // ---------------------------------------------------------------- VEVENT

  /** The seven content lines of the event, in order, fields inserted verbatim. */
  function VEventLines(e: Event): seq<string>
  {
    ["BEGIN:VEVENT", "SUMMARY:" + e.title, "DTSTART:" + e.start, "DTEND:" + e.end,
     "LOCATION:" + e.location, "DESCRIPTION:" + e.description, "END:VEVENT"]
  }

  /**
   `generate_calendar_event_qr`'s payload: BEGIN, SUMMARY, DTSTART, DTEND,
   LOCATION, DESCRIPTION and END joined with `\n`. Reading it back line by
   line gives the seven lines when no field holds a line break, and more than
   seven lines otherwise.
   */
  function VEvent(e: Event): (r: string)
    ensures r == "BEGIN:VEVENT\nSUMMARY:" + e.title + "\nDTSTART:" + e.start + "\nDTEND:" + e.end
                 + "\nLOCATION:" + e.location + "\nDESCRIPTION:" + e.description + "\nEND:VEVENT"
    ensures NoBreaks(EventFields(e)) ==> Split(r) == VEventLines(e)
    ensures !NoBreaks(EventFields(e)) ==> |Split(r)| > 7
  {
    var ls := VEventLines(e);
    VEventText(e);
    SplitOfJoin(ls);
    if NoBreaks(EventFields(e)) then
      var fs := EventFields(e);
      assert fs[0] == e.title && fs[1] == e.start && fs[2] == e.end && fs[3] == e.location && fs[4] == e.description;
      assert '\n' !in ls[0] && '\n' !in ls[6];
      assert '\n' !in ls[1] && '\n' !in ls[2] && '\n' !in ls[3] && '\n' !in ls[4] && '\n' !in ls[5];
      Join(ls)
    else
      assert '\n' in ls[1] || '\n' in ls[2] || '\n' in ls[3] || '\n' in ls[4] || '\n' in ls[5];
      Join(ls)
  }

  /** The joined event lines are the f-string's text, field by field. */
  lemma VEventText(e: Event)
    ensures Join(VEventLines(e)) == "BEGIN:VEVENT\nSUMMARY:" + e.title + "\nDTSTART:" + e.start + "\nDTEND:" + e.end
                                    + "\nLOCATION:" + e.location + "\nDESCRIPTION:" + e.description + "\nEND:VEVENT"
  {
    Join7("BEGIN:VEVENT", "SUMMARY:" + e.title, "DTSTART:" + e.start, "DTEND:" + e.end,
          "LOCATION:" + e.location, "DESCRIPTION:" + e.description, "END:VEVENT");
    var x1 := "BEGIN:VEVENT" + "\n" + ("SUMMARY:" + e.title);
    assert x1 == "BEGIN:VEVENT\nSUMMARY:" + e.title;
    var x2 := x1 + "\n" + ("DTSTART:" + e.start);
    assert x2 == x1 + "\nDTSTART:" + e.start;
    var x3 := x2 + "\n" + ("DTEND:" + e.end);
    assert x3 == x2 + "\nDTEND:" + e.end;
    var x4 := x3 + "\n" + ("LOCATION:" + e.location);
    assert x4 == x3 + "\nLOCATION:" + e.location;
    var x5 := x4 + "\n" + ("DESCRIPTION:" + e.description);
    assert x5 == x4 + "\nDESCRIPTION:" + e.description;
    assert x5 + "\n" + "END:VEVENT" == x5 + "\nEND:VEVENT";
  }

  /** Reads an event payload line by line; `None` unless it has exactly the seven expected lines. */
  function ParseVEvent(s: string): (r: Option<Event>)
    ensures r.Some? ==> |Split(s)| == 7
  {
    var ls := Split(s);
    if |ls| == 7 && ls[0] == "BEGIN:VEVENT"
       && StartsWith(ls[1], "SUMMARY:") && StartsWith(ls[2], "DTSTART:") && StartsWith(ls[3], "DTEND:")
       && StartsWith(ls[4], "LOCATION:") && StartsWith(ls[5], "DESCRIPTION:")
       && ls[6] == "END:VEVENT"
    then Some(Event(ls[1][8..], ls[2][8..], ls[3][6..], ls[4][9..], ls[5][12..]))
    else None
  }

  /**
   The event reads back as itself exactly when no field holds a line break;
   otherwise the payload is unreadable, because nothing is escaped.
   */
  lemma VEventRoundTrip(e: Event)
    ensures ParseVEvent(VEvent(e)) == Some(e) <==> NoBreaks(EventFields(e))
    ensures ParseVEvent(VEvent(e)).Some? <==> NoBreaks(EventFields(e))
  {
    var fs := EventFields(e);
    if NoBreaks(fs) {
      var ls := VEventLines(e);
      assert ls[1][8..] == e.title && ls[2][8..] == e.start && ls[3][6..] == e.end;
      assert ls[4][9..] == e.location && ls[5][12..] == e.description;
    }
  }

  // ---------------------------------------------------------------- geo

  /**
   `generate_location_qr`'s payload: `geo:` latitude `,` longitude `?q=` name,
   coordinates taken as text. It reads back as the same place whenever the
   latitude has no `,` and the longitude no `?`. A `,` inside the latitude
   moves the rest of the latitude into the longitude; a `?` inside the
   longitude moves the rest of the longitude into the query, which then
   reads back only if it still starts with `q=`.
   */
  function Geo(p: Place): (r: string)
    ensures StartsWith(r, "geo:")
    ensures GeoLaidOut(r, p)
    ensures ',' !in p.latitude && '?' !in p.longitude ==> ParseGeo(r) == Some(p)
    ensures var cut := Cut(p.latitude, ',');
            cut.Some? && '?' !in cut.value.1 && '?' !in p.longitude
            ==> ParseGeo(r) == Some(Place(cut.value.0, cut.value.1 + "," + p.longitude, p.name))
    ensures var cut := Cut(p.longitude, '?');
            ',' !in p.latitude && cut.Some?
            ==> ParseGeo(r) == (var query := cut.value.1 + "?q=" + p.name;
                                if StartsWith(query, "q=") then Some(Place(p.latitude, cut.value.0, query[2..])) else None)
  {
    var r := "geo:" + p.latitude + "," + p.longitude + "?q=" + p.name;
    GeoFields(p.latitude, p.longitude, p.name);
    GeoReadBack(p);
    r
  }

  /** How a consumer splitting at the first `,` and the first `?` reads the URI back, case by case. */
  lemma GeoReadBack(p: Place)
    ensures var r := "geo:" + p.latitude + "," + p.longitude + "?q=" + p.name;
            ',' !in p.latitude && '?' !in p.longitude ==> ParseGeo(r) == Some(p)
    ensures var r := "geo:" + p.latitude + "," + p.longitude + "?q=" + p.name;
            var cut := Cut(p.latitude, ',');
            cut.Some? && '?' !in cut.value.1 && '?' !in p.longitude
            ==> ParseGeo(r) == Some(Place(cut.value.0, cut.value.1 + "," + p.longitude, p.name))
    ensures var r := "geo:" + p.latitude + "," + p.longitude + "?q=" + p.name;
            var cut := Cut(p.longitude, '?');
            ',' !in p.latitude && cut.Some?
            ==> ParseGeo(r) == (var query := cut.value.1 + "?q=" + p.name;
                                if StartsWith(query, "q=") then Some(Place(p.latitude, cut.value.0, query[2..])) else None)
  {
    var r := "geo:" + p.latitude + "," + p.longitude + "?q=" + p.name;
    if ',' !in p.latitude && '?' !in p.longitude {
      GeoTextReadsBack(p.latitude, p.longitude, p.name);
    } else if ',' !in p.latitude {
      var cut := Cut(p.longitude, '?');
      var query := cut.value.1 + "?q=" + p.name;
      assert r == "geo:" + p.latitude + "," + cut.value.0 + "?" + query;
      GeoQueryInLongitude(p.latitude, cut.value.0, query);
    } else {
      var cut := Cut(p.latitude, ',');
      if '?' !in cut.value.1 && '?' !in p.longitude {
        GeoCommaInLatitude(cut.value.0, cut.value.1, p.longitude, p.name);
      }
    }
  }

  /**
   `r` holds, field by field and at fixed positions, `geo:`, the latitude,
   `,`, the longitude and `?q=` followed by the name, and nothing else.
   */
  predicate GeoLaidOut(r: string, p: Place)
  {
    var lat, lon := |p.latitude|, |p.longitude|;
    |r| == 8 + lat + lon + |p.name|
    && r[..4] == "geo:" && r[4..4 + lat] == p.latitude && r[4 + lat] == ','
    && r[5 + lat..5 + lat + lon] == p.longitude && r[5 + lat + lon..] == "?q=" + p.name
  }

  /** The layout leaves no freedom: two texts laid out for the same place are equal. */
  lemma GeoLaidOutUnique(r: string, r': string, p: Place)
    requires GeoLaidOut(r, p) && GeoLaidOut(r', p)
    ensures r == r'
  {
    var lat, lon := |p.latitude|, |p.longitude|;
    forall k | 0 <= k < |r|
      ensures r[k] == r'[k]
    {
      if k < 4 {
        assert r[k] == r[..4][k] && r'[k] == r'[..4][k];
      } else if k < 4 + lat {
        assert r[k] == r[4..4 + lat][k - 4] && r'[k] == r'[4..4 + lat][k - 4];
      } else if k == 4 + lat {
      } else if k < 5 + lat + lon {
        assert r[k] == r[5 + lat..5 + lat + lon][k - 5 - lat] && r'[k] == r'[5 + lat..5 + lat + lon][k - 5 - lat];
      } else {
        assert r[k] == r[5 + lat + lon..][k - 5 - lat - lon] && r'[k] == r'[5 + lat + lon..][k - 5 - lat - lon];
      }
    }
  }

  /** The geo URI text puts each field at its own position, whatever the fields contain. */
  lemma GeoFields(latitude: string, longitude: string, name: string)
    ensures GeoLaidOut("geo:" + latitude + "," + longitude + "?q=" + name, Place(latitude, longitude, name))
  {
    var a := "geo:" + latitude;
    var b := a + "," + longitude;
    var r := b + ("?q=" + name);
    assert r == "geo:" + latitude + "," + longitude + "?q=" + name;
    assert r[..|b|] == b && r[|b|..] == "?q=" + name;
    assert b[..|a|] == a && b[|a|] == ',' && b[|a| + 1..] == longitude;
    assert a[..4] == "geo:" && a[4..] == latitude;
  }

  /** A `,` in the latitude ends the latitude there; what follows becomes the start of the longitude. */
  lemma GeoCommaInLatitude(head: string, tail: string, longitude: string, name: string)
    requires ',' !in head && '?' !in tail && '?' !in longitude
    ensures ParseGeo("geo:" + (head + [','] + tail) + "," + longitude + "?q=" + name)
            == Some(Place(head, tail + "," + longitude, name))
  {
    assert "geo:" + (head + [','] + tail) + "," + longitude + "?q=" + name
        == "geo:" + head + "," + (tail + "," + longitude) + "?q=" + name;
    GeoTextReadsBack(head, tail + "," + longitude, name);
  }

  /**
   A `?` in the longitude ends the longitude there; what follows it, up to the
   end of the URI, is read as the query, which must still start with `q=`.
   */
  lemma GeoQueryInLongitude(latitude: string, head: string, query: string)
    requires ',' !in latitude && '?' !in head
    ensures ParseGeo("geo:" + latitude + "," + head + "?" + query)
            == if StartsWith(query, "q=") then Some(Place(latitude, head, query[2..])) else None
  {
    var rest := head + "?" + query;
    var body := latitude + "," + rest;
    var r := "geo:" + latitude + "," + head + "?" + query;
    assert r == "geo:" + body && r[4..] == body;
    CutJoin(latitude, ',', rest);
    CutJoin(head, '?', query);
  }

  /** The parser recovers the three texts of a geo URI whose latitude has no `,` and whose longitude has no `?`. */
  lemma GeoTextReadsBack(latitude: string, longitude: string, name: string)
    requires ',' !in latitude && '?' !in longitude
    ensures ParseGeo("geo:" + latitude + "," + longitude + "?q=" + name) == Some(Place(latitude, longitude, name))
  {
    var query := "q=" + name;
    var rest := longitude + "?" + query;
    var body := latitude + "," + rest;
    var r := "geo:" + latitude + "," + longitude + "?q=" + name;
    assert r == "geo:" + body && r[4..] == body;
    CutJoin(latitude, ',', rest);
    CutJoin(longitude, '?', query);
    assert query[2..] == name;
  }

  /**
   Reads a `geo:` URI the way its scheme is laid out: the latitude runs to the
   first `,`, the longitude to the first `?`, and the query must start `q=`.
   */
  function ParseGeo(s: string): (r: Option<Place>)
    ensures r.Some? ==> ',' !in r.value.latitude && '?' !in r.value.longitude
  {
    if !StartsWith(s, "geo:") then None
    else
      match Cut(s[4..], ',')
      case None => None
      case Some((latitude, rest)) =>
        match Cut(rest, '?')
        case None => None
        case Some((longitude, query)) =>
          if StartsWith(query, "q=") then Some(Place(latitude, longitude, query[2..])) else None
  }

  /** The geo URI reads back as the place exactly when the latitude has no `,` and the longitude no `?`. */
  lemma GeoRoundTrip(p: Place)
    ensures ParseGeo(Geo(p)) == Some(p) <==> ',' !in p.latitude && '?' !in p.longitude
  {
  }
}
