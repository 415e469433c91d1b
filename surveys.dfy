/** Email signatures for feedback surveys (src/lib/hooks/use-enhanced-surveys.ts):
    the rating buttons a template's rating type and scale produce, the
    tracking id that names the template and the user, and the lookups that
    `generateSignature` fails on. The tracking id is read back on the
    feedback page (src/pages/feedback-collection.tsx) by decoding it and
    splitting it at ':'.

    The markup is kept to what identifies a button (its class, its
    `data-rating` attribute and its label); inline styles and whitespace
    are not modelled. */
module Surveys {
  import opened Basics
  import Base64

  datatype RatingType = Numeric | Stars | Emoji

  /** The five faces of the emoji scale, worst first. */
  const Faces: seq<string> := ["\U{1F621}", "\U{1F615}", "\U{1F610}", "\U{1F642}", "\U{1F60A}"]

  const Star: string := "\U{2B50}"

  /** The length `Array.from({ length: n })` creates, for a whole number:
      a negative length gives an empty array. */
  function ArrayLength(n: int): (len: nat)
    ensures n >= 0 ==> len == n
    ensures n < 0 ==> len == 0
  {
    if n < 0 then 0 else n
  }

  /** The rating values a scale offers, in button order. */
  function RatingValues(kind: RatingType, min: int, max: int): (r: seq<int>)
    ensures forall i :: 0 <= i < |r| - 1 ==> r[i + 1] == r[i] + 1
    ensures kind == Emoji ==> r == [1, 2, 3, 4, 5]
    ensures kind != Numeric && |r| > 0 ==> r[0] == 1
  {
    match kind
    case Numeric => seq(ArrayLength(max - min + 1), i => i + min)
    case Stars => seq(ArrayLength(max), i => i + 1)
    case Emoji => seq(|Faces|, i => i + 1)
  }

  /** `${n}` for a whole number. */
  function IntText(n: int): (r: string)
    ensures |r| >= 1
    ensures n < 0 <==> r[0] == '-'
    ensures n >= 0 ==> DigitsValue(r) == n
    ensures n < 0 ==> DigitsValue(r[1..]) == -n
  {
    if n < 0 then "-" + Decimal(-n) else Decimal(n)
  }

  /** One rating button: the scale it belongs to, its `data-rating` value
      and what it shows. */
  datatype Button = Button(kind: RatingType, rating: int, caption: string)

  /** The buttons of a scale: numbers show themselves, stars a star and the
      emoji scale its five faces in order. */
  function RatingButtons(kind: RatingType, min: int, max: int): (b: seq<Button>)
    ensures var v := RatingValues(kind, min, max);
      |b| == |v| && forall i :: 0 <= i < |b| ==> b[i].rating == v[i] && b[i].kind == kind
    ensures kind == Emoji ==> forall i :: 0 <= i < 5 ==> b[i].caption == Faces[i]
    ensures kind == Numeric ==> forall i :: 0 <= i < |b| ==> b[i].caption == IntText(b[i].rating)
    ensures kind == Stars ==> forall i :: 0 <= i < |b| ==> b[i].caption == Star
  {
    var values := RatingValues(kind, min, max);
    seq(|values|, i requires 0 <= i < |values| =>
      Button(kind, values[i],
        match kind
        case Numeric => IntText(values[i])
        case Stars => Star
        case Emoji => if i < |Faces| then Faces[i] else ""))
  }

  function ClassName(kind: RatingType): string
  {
    match kind
    case Numeric => "numeric"
    case Stars => "star"
    case Emoji => "emoji"
  }

  /** The `data-rating` attribute of a button with this value. */
  function DataRating(n: int): string
  {
    "data-rating=\"" + IntText(n) + "\""
  }

  /** The markup of one button. */
  function Fragment(b: Button): string
  {
    "<button class=\"rating-btn " + ClassName(b.kind) + "\" " + DataRating(b.rating) + ">" + b.caption + "</button>"
  }

  /** `parts.join('')`. */
  function Concat(parts: seq<string>): string
  {
    if |parts| == 0 then "" else parts[0] + Concat(parts[1..])
  }

  /** `generateRatingHTML`: the buttons' markup, one after the other. */
  function RatingHtml(kind: RatingType, min: int, max: int): (html: string)
    ensures var v := RatingValues(kind, min, max);
      forall i :: 0 <= i < |v| ==> Includes(html, DataRating(v[i]))
  {
    var buttons := RatingButtons(kind, min, max);
    FragmentsCarryRatings(buttons);
    Concat(Fragments(buttons))
  }

  /** The markup of each button, in order. */
  function Fragments(buttons: seq<Button>): (parts: seq<string>)
    ensures |parts| == |buttons| && forall i :: 0 <= i < |buttons| ==> parts[i] == Fragment(buttons[i])
  {
    seq(|buttons|, i requires 0 <= i < |buttons| => Fragment(buttons[i]))
  }

  // ---------------------------------------------------------------------
  // Tracking ids

  /** The text inside a tracking id: template id, user id and the time in
      milliseconds, separated by ':'. */
  function TrackingPayload(templateId: string, userId: string, now: nat): string
  {
    templateId + ":" + userId + ":" + Decimal(now)
  }

  /** `btoa(`${templateId}:${userId}:${Date.now()}`)`, with the clock reading
      as a parameter. */
  function TrackingId(templateId: string, userId: string, now: nat): (r: Result<string, Base64.Base64Error>)
    ensures r.Ok? ==> Base64.Atob(r.value) == Ok(TrackingPayload(templateId, userId, now))
  {
    var payload := TrackingPayload(templateId, userId, now);
    Base64.AtobBtoa(payload);
    Base64.Btoa(payload)
  }

  /** What the feedback page reads from a tracking id:
      `const [templateId, userId] = atob(trackingId).split(':')`; a missing
      second piece is `undefined`. */
  function DecodeTrackingId(trackingId: string): (r: Result<(string, Option<string>), Base64.Base64Error>)
    ensures r.Err? <==> Base64.Atob(trackingId).Err?
    ensures r.Ok? ==> ':' !in r.value.0 && (r.value.1.Some? ==> ':' !in r.value.1.value)
  {
    match Base64.Atob(trackingId)
    case Err(e) => Err(e)
    case Ok(text) =>
      var parts := Split(text, ':');
      JoinSplit(text, ':');
      Ok((parts[0], if |parts| > 1 then Some(parts[1]) else None))
  }

  // ---------------------------------------------------------------------
  // generateSignature

  datatype Template = Template(id: string, ratingType: RatingType, scaleMin: int, scaleMax: int)

  /** The user fields the signature shows. */
  datatype User = User(firstName: string, lastName: string, title: Option<string>, phone: Option<string>, email: Option<string>)

  datatype SignatureError = TemplateNotFound | UserNotFound | InvalidTrackingText

  datatype Signature = Signature(trackingId: string, user: User, ratingHtml: string)

  /** `templates?.find(t => t.id === id)`: the first template with the id;
      nothing while the templates have not loaded. */
  function FindTemplate(templates: Option<seq<Template>>, id: string): (r: Option<Template>)
    ensures r.Some? ==> r.value.id == id && templates.Some? && r.value in templates.value
  {
    if templates.None? then None else FindIn(templates.value, id)
  }

  function FindIn(ts: seq<Template>, id: string): (r: Option<Template>)
    ensures r.Some? ==> r.value.id == id && r.value in ts
  {
    if |ts| == 0 then None
    else if ts[0].id == id then Some(ts[0])
    else FindIn(ts[1..], id)
  }

  /** `generateSignature(templateId, userId)` with the loaded templates, the
      answer of the user lookup and the clock reading as parameters. The
      template is looked up first, then the user; `btoa` fails on ids with a
      character above U+00FF. */
  function GenerateSignature(templates: Option<seq<Template>>, templateId: string, userId: string,
                             user: Option<User>, now: nat): (r: Result<Signature, SignatureError>)
    ensures r == Err(TemplateNotFound) <==> FindTemplate(templates, templateId).None?
    ensures r == Err(InvalidTrackingText) <==>
      FindTemplate(templates, templateId).Some? && user.Some? && TrackingId(templateId, userId, now).Err?
    ensures r.Ok? <==>
      FindTemplate(templates, templateId).Some? && user.Some? && TrackingId(templateId, userId, now).Ok?
    ensures r.Ok? ==> user.Some? && r.value.user == user.value && Ok(r.value.trackingId) == TrackingId(templateId, userId, now)
  {
    match FindTemplate(templates, templateId)
    case None => Err(TemplateNotFound)
    case Some(template) =>
      if user.None? then Err(UserNotFound)
      else match TrackingId(templateId, userId, now)
        case Err(_) => Err(InvalidTrackingText)
        case Ok(id) => Ok(Signature(id, user.value, RatingHtml(template.ratingType, template.scaleMin, template.scaleMax)))
  }

  // ---------------------------------------------------------------------
  // Lemmas: rating scales

  /** A numeric scale counts from min to max, one button per whole number
      (none when max < min); stars count from 1 to max whatever min is; the
      emoji scale is always 1 to 5. */
  lemma RatingValuesSpec(kind: RatingType, min: int, max: int)
    ensures var r := RatingValues(kind, min, max);
      match kind
      case Numeric => |r| == (if max >= min then max - min + 1 else 0) && forall i :: 0 <= i < |r| ==> r[i] == min + i
      case Stars => |r| == (if max >= 0 then max else 0) && forall i :: 0 <= i < |r| ==> r[i] == i + 1
      case Emoji => r == [1, 2, 3, 4, 5]
  {
    if kind == Emoji {
      var r := RatingValues(kind, min, max);
      assert r[0] == 1 && r[1] == 2 && r[2] == 3 && r[3] == 4 && r[4] == 5;
    }
  }

  /** Stars ignore the minimum and the emoji scale ignores both bounds. */
  lemma ScaleIndependence(min1: int, max1: int, min2: int, max2: int)
    ensures RatingValues(Stars, min1, max1) == RatingValues(Stars, min2, max1)
    ensures RatingValues(Emoji, min1, max1) == RatingValues(Emoji, min2, max2)
  {
  }

  /** Within the bounds a template form accepts (both ends in 0..10, in no
      particular order), every value is in 0..10 and there are at most
      eleven buttons; a numeric scale whose minimum exceeds its maximum has
      no buttons at all. */
  lemma FormBoundedScales(kind: RatingType, min: int, max: int)
    requires 0 <= min <= 10 && 0 <= max <= 10
    ensures |RatingValues(kind, min, max)| <= 11
    ensures forall i :: 0 <= i < |RatingValues(kind, min, max)| ==> 0 <= RatingValues(kind, min, max)[i] <= 10
    ensures min > max ==> RatingValues(Numeric, min, max) == []
  {
    RatingValuesSpec(kind, min, max);
  }

  /** The concatenation holds each part at its place. */
  lemma {:induction false} ConcatAt(parts: seq<string>, i: nat)
    requires i < |parts|
    ensures Concat(parts) == Concat(parts[..i]) + parts[i] + Concat(parts[i + 1..])
  {
    if i == 0 {
      assert parts[..0] == [];
    } else {
      ConcatAt(parts[1..], i - 1);
      assert parts[1..][..i - 1] == parts[1..i];
      assert parts[1..][i - 1 + 1..] == parts[i + 1..];
      assert parts[..i] == [parts[0]] + parts[1..i];
      assert Concat(parts[..i]) == parts[0] + Concat(parts[1..i]);
    }
  }

  /** A button's markup carries its `data-rating` attribute. */
  lemma FragmentRating(b: Button)
    ensures Includes(Fragment(b), DataRating(b.rating))
  {
    var pre := "<button class=\"rating-btn " + ClassName(b.kind) + "\" ";
    var post := ">" + b.caption + "</button>";
    assert Fragment(b) == pre + DataRating(b.rating) + post;
    IncludesInfix(pre, DataRating(b.rating), post);
  }

  /** Whatever one part holds, the concatenation holds. */
  lemma ConcatIncludes(parts: seq<string>, i: nat, sub: string)
    requires i < |parts| && Includes(parts[i], sub)
    ensures Includes(Concat(parts), sub)
  {
    ConcatAt(parts, i);
    IncludesWithin(Concat(parts[..i]), parts[i], Concat(parts[i + 1..]), sub);
  }

  /** Each button's `data-rating` attribute occurs in the joined markup. */
  lemma FragmentsCarryRatings(buttons: seq<Button>)
    ensures forall i :: 0 <= i < |buttons| ==> Includes(Concat(Fragments(buttons)), DataRating(buttons[i].rating))
  {
    var parts := Fragments(buttons);
    forall i | 0 <= i < |buttons|
      ensures Includes(Concat(parts), DataRating(buttons[i].rating))
    {
      FragmentRating(buttons[i]);
      ConcatIncludes(parts, i, DataRating(buttons[i].rating));
    }
  }

  /** Different numbers print differently, so each button of a scale
      carries its own `data-rating` text. */
  lemma IntTextInjective(a: int, b: int)
    ensures IntText(a) == IntText(b) ==> a == b
  {
    if IntText(a) == IntText(b) && a < 0 {
      assert IntText(a)[1..] == IntText(b)[1..];
    }
  }

  /** Different values give different `data-rating` attributes. */
  lemma DataRatingInjective(a: int, b: int)
    ensures DataRating(a) == DataRating(b) ==> a == b
  {
    if DataRating(a) == DataRating(b) {
      var x, y := DataRating(a), DataRating(b);
      var m := |"data-rating=\""|;
      assert x[m..|x| - 1] == IntText(a);
      assert y[m..|y| - 1] == IntText(b);
      IntTextInjective(a, b);
    }
  }

  /** Two buttons of one scale never share a `data-rating` attribute. */
  lemma DistinctRatings(kind: RatingType, min: int, max: int)
    ensures var v := RatingValues(kind, min, max);
      forall i, j :: 0 <= i < j < |v| ==> DataRating(v[i]) != DataRating(v[j])
  {
    var v := RatingValues(kind, min, max);
    forall i, j | 0 <= i < j < |v|
      ensures DataRating(v[i]) != DataRating(v[j])
    {
      ConsecutiveIncrease(v, i, j);
      DataRatingInjective(v[i], v[j]);
    }
  }

  /** A sequence that goes up by one at each step is strictly increasing;
      `DistinctRatings` uses it on the values of a scale. */
  lemma {:induction false} ConsecutiveIncrease(v: seq<int>, i: nat, j: nat)
    requires forall k :: 0 <= k < |v| - 1 ==> v[k + 1] == v[k] + 1
    requires i < j < |v|
    ensures v[i] < v[j]
  {
    if j > i + 1 {
      ConsecutiveIncrease(v, i, j - 1);
    }
  }

  // ---------------------------------------------------------------------
  // Lemmas: tracking ids

  /** `btoa` accepts the tracking text exactly when neither id has a
      character above U+00FF; the clock reading is plain digits. */
  lemma TrackingIdAccepted(templateId: string, userId: string, now: nat)
    ensures TrackingId(templateId, userId, now).Ok? <==>
      (forall i :: 0 <= i < |templateId| ==> templateId[i] as int < 256) &&
      (forall i :: 0 <= i < |userId| ==> userId[i] as int < 256)
  {
    var p := TrackingPayload(templateId, userId, now);
    Base64.AtobBtoa(p);
    var t, u, d := |templateId|, |userId|, Decimal(now);
    assert forall i :: 0 <= i < t ==> p[i] == templateId[i];
    assert forall i :: 0 <= i < |userId| ==> p[t + 1 + i] == userId[i];
    assert forall i :: 0 <= i < |p| ==> i < t || i == t || t < i <= t + u || i == t + u + 1 || p[i] == d[i - t - u - 2];
  }

  /** Splitting `t:u:d` at ':' gives `t` and `u` as its first two pieces
      exactly when neither contains ':'. */
  lemma ReadBackIds(t: string, u: string, d: string)
    ensures var parts := Split(t + ":" + u + ":" + d, ':');
      (|parts| > 1 && parts[0] == t && parts[1] == u) <==> ':' !in t && ':' !in u
  {
    var tail := u + ":" + d;
    var p := t + ":" + u + ":" + d;
    assert p == t + [':'] + tail;
    if ':' in t {
      SplitFirstStops(t, ':', [':'] + tail);
      assert p == t + ([':'] + tail);
    } else {
      SplitCons(t, ':', tail);
      assert tail == u + [':'] + d;
      if ':' in u {
        SplitFirstStops(u, ':', [':'] + d);
        assert tail == u + ([':'] + d);
      } else {
        SplitCons(u, ':', d);
      }
    }
  }

  /** The feedback page reads back the template id and the user id of a
      tracking id exactly when neither id contains ':'. */
  lemma TrackingRoundTrip(templateId: string, userId: string, now: nat)
    requires TrackingId(templateId, userId, now).Ok?
    ensures DecodeTrackingId(TrackingId(templateId, userId, now).value) == Ok((templateId, Some(userId)))
      <==> ':' !in templateId && ':' !in userId
  {
    var p := TrackingPayload(templateId, userId, now);
    Base64.AtobBtoa(p);
    ReadBackIds(templateId, userId, Decimal(now));
  }

  // ---------------------------------------------------------------------
  // Lemmas: generateSignature

  /** The template lookup fails exactly when no loaded template has the id. */
  lemma {:induction false} FindInSpec(ts: seq<Template>, id: string)
    ensures FindIn(ts, id).None? <==> forall k :: 0 <= k < |ts| ==> ts[k].id != id
    ensures FindIn(ts, id).Some? ==>
      exists k :: 0 <= k < |ts| && ts[k] == FindIn(ts, id).value && (forall j :: 0 <= j < k ==> ts[j].id != id)
  {
    if |ts| > 0 && ts[0].id != id {
      FindInSpec(ts[1..], id);
      if FindIn(ts, id).Some? {
        var k :| 0 <= k < |ts[1..]| && ts[1..][k] == FindIn(ts, id).value && forall j :: 0 <= j < k ==> ts[1..][j].id != id;
        assert ts[k + 1] == ts[1..][k];
        assert forall j :: 1 <= j < k + 1 ==> ts[j].id == ts[1..][j - 1].id;
      } else {
        assert forall k :: 1 <= k < |ts| ==> ts[k] == ts[1..][k - 1];
      }
    } else if |ts| > 0 {
      assert ts[0] == FindIn(ts, id).value;
    }
  }

  /** The failures of `generateSignature`, in the order it checks: no such
      template (or none loaded), then no such user, then an id `btoa`
      rejects, which happens exactly when an id holds a character above
      U+00FF; a signature is produced in every other case, and it carries the tracking id and the
      buttons of the first template with the id. */
  lemma SignatureOutcomes(templates: Option<seq<Template>>, templateId: string, userId: string,
                          user: Option<User>, now: nat)
    ensures var r := GenerateSignature(templates, templateId, userId, user, now);
      (r == Err(TemplateNotFound) <==>
         templates.None? || forall k :: 0 <= k < |templates.value| ==> templates.value[k].id != templateId) &&
      (r == Err(UserNotFound) <==> FindTemplate(templates, templateId).Some? && user.None?) &&
      (r == Err(InvalidTrackingText) <==>
         FindTemplate(templates, templateId).Some? && user.Some? &&
         exists i :: 0 <= i < |templateId + userId| && (templateId + userId)[i] as int >= 256) &&
      (r.Ok? <==>
         FindTemplate(templates, templateId).Some? && user.Some? &&
         forall i :: 0 <= i < |templateId + userId| ==> (templateId + userId)[i] as int < 256) &&
      (r.Ok? ==>
         (user.Some? && r.value.user == user.value &&
          Ok(r.value.trackingId) == TrackingId(templateId, userId, now) &&
          var t := FindTemplate(templates, templateId).value;
          r.value.ratingHtml == RatingHtml(t.ratingType, t.scaleMin, t.scaleMax)))
  {
    if templates.Some? {
      FindInSpec(templates.value, templateId);
    }
    TrackingIdAccepted(templateId, userId, now);
    var ids := templateId + userId;
    assert forall i :: 0 <= i < |templateId| ==> ids[i] == templateId[i];
    assert forall i :: 0 <= i < |userId| ==> ids[|templateId| + i] == userId[i];
  }

  /** A signature for ids without ':' carries a tracking id from which the
      feedback page recovers exactly those ids. */
  lemma SignatureTracksIds(templates: Option<seq<Template>>, templateId: string, userId: string,
                           user: Option<User>, now: nat)
    requires GenerateSignature(templates, templateId, userId, user, now).Ok?
    requires ':' !in templateId && ':' !in userId
    ensures DecodeTrackingId(GenerateSignature(templates, templateId, userId, user, now).value.trackingId)
      == Ok((templateId, Some(userId)))
  {
    TrackingRoundTrip(templateId, userId, now);
  }
}
