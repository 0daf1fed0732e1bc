/** Which calls the Field proxy forwards: the ordered early returns of the code,
    and the table they come to. */
module FieldAllowlist {
  import opened Wrappers

  datatype Verb = Get | Post | Put | Patch | Delete | Other(name: string)

  // ----- paths as text -----

  /** `path.split('/')`, empty pieces included. */
  function Split(path: string): (s: seq<string>)
    ensures s != []
  {
    if path == "" then [""]
    else
      var rest := Split(path[1..]);
      if path[0] == '/' then [""] + rest else [[path[0]] + rest[0]] + rest[1..]
  }

  function StripPrefix(path: string, prefix: string): Option<string> {
    if prefix <= path then Some(path[|prefix|..]) else None
  }

  predicate EndsWith(path: string, suffix: string) {
    |suffix| <= |path| && path[|path| - |suffix|..] == suffix
  }

  predicate HasSafeSegments(path: string) {
    && path != "" && path[0] == '/'
    && '\\' !in path
    && forall s :: s in Split(path)[1..] ==> s != "" && s != "." && s != ".."
  }

  // ----- the path predicates -----

  datatype Surface =
    | Staff | ReservationTypes | Reservations | Orders
    | Objects | Definitions
    | IamUsers | ClientContext
    | CancellationFees | Invoices

  /** The literal path the code compares with. */
  function Text(surface: Surface): string {
    match surface
    case Staff => "/v1/erp" + "/" + "staff"
    case ReservationTypes => "/v1/erp" + "/" + "reservation-types"
    case Reservations => "/v1/erp" + "/" + "reservations"
    case Orders => "/v1/erp" + "/" + "orders"
    case Objects => "/v1/bridge" + "/" + "exports" + "/" + "objects"
    case Definitions => "/v1/bridge" + "/" + "exports" + "/" + "definitions"
    case IamUsers => "/v1/field" + "/" + "iam" + "/" + "users"
    case ClientContext => "/v1/field" + "/" + "client-context"
    case CancellationFees => "/v1" + "/" + "cancellation-fees"
    case Invoices => "/v1" + "/" + "invoices"
  }

  function Invite(): string {
    Text(IamUsers) + "/invite"
  }

  /** The pieces behind `prefix/`, if the path is below it. */
  function Below(path: string, prefix: string): Option<seq<string>> {
    var suffix := StripPrefix(path, prefix + "/");
    if suffix.None? then None else Some(Split(suffix.value))
  }

  predicate IsBridgeExportPath(path: string) {
    if path == Text(Objects) || path == Text(Definitions) then true
    else
      var below := Below(path, Text(Definitions));
      && below.Some? && |below.value| == 2
      && (below.value[1] == "csv" || below.value[1] == "render") && below.value[0] != ""
  }

  predicate IsNonEmptySubpath(path: string, prefix: string) {
    var suffix := StripPrefix(path, prefix);
    suffix.Some? && StripPrefix(suffix.value, "/").Some? && StripPrefix(suffix.value, "/").value != ""
  }

  predicate IsStaffMemberPath(path: string) {
    var suffix := StripPrefix(path, Text(Staff) + "/");
    suffix.Some? && suffix.value != "" && '/' !in suffix.value
  }

  predicate IsFieldIamUserPath(path: string) {
    var below := Below(path, Text(IamUsers));
    below.Some? && |below.value| == 1 && below.value[0] != "" && below.value[0] != "invite"
  }

  predicate IsFieldIamUserPoliciesPath(path: string) {
    var below := Below(path, Text(IamUsers));
    && below.Some? && |below.value| == 2 && below.value[1] == "policies"
    && below.value[0] != "" && below.value[0] != "invite"
  }

  predicate IsFieldIamPath(path: string) {
    path == Text(IamUsers) || path == Invite() || IsFieldIamUserPoliciesPath(path) || IsFieldIamUserPath(path)
  }

  predicate IsReservationBillingInvoicePath(path: string) {
    var below := Below(path, Text(Reservations));
    below.Some? && |below.value| == 2 && below.value[1] == "billing-invoice" && below.value[0] != ""
  }

  predicate IsOrderDetailPath(path: string) {
    var below := Below(path, Text(Orders));
    below.Some? && |below.value| == 1 && below.value[0] != ""
  }

  predicate IsInvoicePath(path: string) {
    if path == Text(Invoices) then true
    else
      var below := Below(path, Text(Invoices));
      && below.Some?
      && (|below.value| == 1 || (|below.value| == 2 && below.value[1] == "fulfill"))
      && below.value[0] != ""
  }

  predicate IsCancellationFeePath(path: string) {
    if path == Text(CancellationFees) then true
    else
      var below := Below(path, Text(CancellationFees));
      && below.Some?
      && (|below.value| == 1 || (|below.value| == 2 && (below.value[1] == "fulfill" || below.value[1] == "send")))
      && below.value[0] != ""
  }

  predicate IsAllowedPath(path: string) {
    HasSafeSegments(path)
    && (|| path == Text(Staff)
        || IsNonEmptySubpath(path, Text(Staff))
        || path == Text(ReservationTypes)
        || IsFieldIamPath(path)
        || IsReservationBillingInvoicePath(path)
        || IsOrderDetailPath(path)
        || path == Text(ClientContext)
        || IsCancellationFeePath(path)
        || IsInvoicePath(path)
        || IsBridgeExportPath(path))
  }

  predicate IsBridgeExportCall(verb: Verb, path: string) {
    || (verb == Get && !EndsWith(path, "/render"))
    || (verb == Post && (path == Text(Definitions) || EndsWith(path, "/render")))
  }

  predicate IsCancellationFeeCall(verb: Verb, path: string) {
    if path == Text(CancellationFees) then verb == Get || verb == Post
    else
      var below := Below(path, Text(CancellationFees));
      if below.None? then false
      else if |below.value| == 1 then verb == Get || verb == Patch
      else if |below.value| == 2 && (below.value[1] == "fulfill" || below.value[1] == "send") then verb == Post
      else false
  }

  predicate IsInvoiceCall(verb: Verb, path: string) {
    if path == Text(Invoices) then verb == Get || verb == Post
    else
      var below := Below(path, Text(Invoices));
      if below.None? then false
      else if |below.value| == 1 then verb == Get || verb == Patch
      else if |below.value| == 2 && below.value[1] == "fulfill" then verb == Post
      else false
  }

  /** The early returns, in their order. */
  predicate IsAllowedRoute(verb: Verb, path: string) {
    if !IsAllowedPath(path) then false
    else if IsBridgeExportPath(path) then IsBridgeExportCall(verb, path)
    else if path == Text(ReservationTypes) then verb == Get
    else if path == Text(Staff) then verb == Get || verb == Post
    else if IsStaffMemberPath(path) then verb == Patch || verb == Delete
    else if path == Text(IamUsers) then verb == Get
    else if path == Invite() then verb == Post
    else if IsFieldIamUserPoliciesPath(path) then verb == Put
    else if IsFieldIamUserPath(path) then verb == Delete
    else if IsNonEmptySubpath(path, Text(Staff)) then verb == Post
    else if IsReservationBillingInvoicePath(path) then verb == Post
    else if IsOrderDetailPath(path) then verb == Get
    else if path == Text(ClientContext) then verb == Get
    else if IsCancellationFeePath(path) then IsCancellationFeeCall(verb, path)
    else IsInvoiceCall(verb, path)
  }

  predicate ChangesPermissions(verb: Verb, path: string) {
    if verb == Put then IsFieldIamUserPoliciesPath(path)
    else if verb == Post then path == Invite()
    else if verb == Delete then IsFieldIamUserPath(path)
    else false
  }

  // ----- the table -----

  /** The segments of the surface, the empty one in front of the first slash
      included. */
  function Words(surface: Surface): (w: seq<string>)
    ensures w != []
  {
    match surface
    case Staff => ["", "v1", "erp", "staff"]
    case ReservationTypes => ["", "v1", "erp", "reservation-types"]
    case Reservations => ["", "v1", "erp", "reservations"]
    case Orders => ["", "v1", "erp", "orders"]
    case Objects => ["", "v1", "bridge", "exports", "objects"]
    case Definitions => ["", "v1", "bridge", "exports", "definitions"]
    case IamUsers => ["", "v1", "field", "iam", "users"]
    case ClientContext => ["", "v1", "field", "client-context"]
    case CancellationFees => ["", "v1", "cancellation-fees"]
    case Invoices => ["", "v1", "invoices"]
  }

  /** What may be done on a surface, by the segments below it. */
  function Verbs(surface: Surface, tail: seq<string>): set<Verb> {
    match surface
    case Staff => StaffVerbs(|tail|)
    case ReservationTypes => if |tail| == 0 then {Get} else {}
    case Reservations => if Named(tail, "billing-invoice") then {Post} else {}
    case Orders => if |tail| == 1 then {Get} else {}
    case Objects => if |tail| == 0 then {Get} else {}
    case Definitions => DefinitionVerbs(tail)
    case IamUsers => IamVerbs(tail)
    case ClientContext => if |tail| == 0 then {Get} else {}
    case CancellationFees => FeeVerbs(tail)
    case Invoices => InvoiceVerbs(tail)
  }

  /** One id, then that operation. */
  predicate Named(tail: seq<string>, operation: string) {
    |tail| == 2 && tail[1] == operation
  }

  /** One member can be edited or removed; every deeper operation is a POST. */
  function StaffVerbs(depth: nat): set<Verb> {
    if depth == 0 then {Get, Post} else if depth == 1 then {Patch, Delete} else {Post}
  }

  function DefinitionVerbs(tail: seq<string>): set<Verb> {
    if |tail| == 0 then {Get, Post}
    else if Named(tail, "csv") then {Get}
    else if Named(tail, "render") then {Post}
    else {}
  }

  function IamVerbs(tail: seq<string>): set<Verb> {
    if |tail| == 0 then {Get}
    else if |tail| == 1 then (if tail[0] == "invite" then {Post} else {Delete})
    else if Named(tail, "policies") && tail[0] != "invite" then {Put}
    else {}
  }

  function FeeVerbs(tail: seq<string>): set<Verb> {
    if |tail| == 0 then {Get, Post}
    else if |tail| == 1 then {Get, Patch}
    else if Named(tail, "fulfill") || Named(tail, "send") then {Post}
    else {}
  }

  function InvoiceVerbs(tail: seq<string>): set<Verb> {
    if |tail| == 0 then {Get, Post}
    else if |tail| == 1 then {Get, Patch}
    else if Named(tail, "fulfill") then {Post}
    else {}
  }

  predicate On(surface: Surface, path: string) {
    Words(surface) <= Split(path)
  }

  function Tail(surface: Surface, path: string): seq<string>
    requires On(surface, path)
  {
    Split(path)[|Words(surface)|..]
  }

  // ----- text and segments -----

  function Join(segments: seq<string>): string
    requires segments != []
  {
    if |segments| == 1 then segments[0] else segments[0] + "/" + Join(segments[1..])
  }

  lemma {:induction false} SplitJoins(path: string)
    ensures Join(Split(path)) == path
  {
    if path != "" {
      SplitJoins(path[1..]);
      var rest := Split(path[1..]);
      if path[0] == '/' {
        assert ([""] + rest)[1..] == rest;
      } else {
        assert ([[path[0]] + rest[0]] + rest[1..])[1..] == rest[1..];
      }
    }
  }

  lemma SameSegmentsSamePath(a: string, b: string)
    ensures a == b <==> Split(a) == Split(b)
  {
    SplitJoins(a);
    SplitJoins(b);
  }

  /** What one more character in front does to the pieces. */
  function Grown(c: char, pieces: seq<string>): seq<string>
    requires pieces != []
  {
    if c == '/' then [""] + pieces else [[c] + pieces[0]] + pieces[1..]
  }

  lemma SplitCons(c: char, rest: string)
    ensures Split([c] + rest) == Grown(c, Split(rest))
  {
    assert ([c] + rest)[1..] == rest;
  }

  lemma GrownConcat(c: char, a: seq<string>, b: seq<string>)
    requires a != []
    ensures Grown(c, a + b) == Grown(c, a) + b
  {
  }

  lemma Uncons(head: string, tail: string)
    requires head != ""
    ensures head == [head[0]] + head[1..]
    ensures head + "/" + tail == [head[0]] + (head[1..] + "/" + tail)
  {
  }

  lemma SplitNothing(tail: string)
    ensures Split("" + "/" + tail) == Split("") + Split(tail)
  {
    assert "" + "/" + tail == ['/'] + tail;
    SplitCons('/', tail);
  }

  lemma {:induction false} SplitAt(head: string, tail: string)
    ensures Split(head + "/" + tail) == Split(head) + Split(tail)
  {
    hide Split, Grown;
    if head == "" {
      SplitNothing(tail);
    } else {
      var c, more := head[0], head[1..];
      SplitAt(more, tail);
      Uncons(head, tail);
      SplitCons(c, more + "/" + tail);
      SplitCons(c, more);
      GrownConcat(c, Split(more), Split(tail));
    }
  }

  lemma {:induction false} SplitPlain(word: string)
    requires '/' !in word
    ensures Split(word) == [word]
  {
    if word != "" {
      SplitPlain(word[1..]);
      assert word == [word[0]] + word[1..];
    }
  }

  lemma {:induction false} JoinConcat(a: seq<string>, b: seq<string>)
    requires a != [] && b != []
    ensures Join(a + b) == Join(a) + "/" + Join(b)
  {
    if |a| == 1 {
      assert (a + b)[1..] == b;
    } else {
      JoinConcat(a[1..], b);
      assert (a + b)[1..] == a[1..] + b;
    }
  }

  /** A path lies below a prefix, as text, exactly when its segments continue
      the prefix's; what is stripped off splits into the rest. */
  lemma BelowIsTail(path: string, prefix: string)
    ensures var p, s := Split(prefix), Split(path);
            && (Below(path, prefix).Some? <==> p <= s && |p| < |s|)
            && (Below(path, prefix).Some? ==> Below(path, prefix).value == s[|p|..])
  {
    hide Split;
    var p, s := Split(prefix), Split(path);
    if prefix + "/" <= path {
      var suffix := path[|prefix + "/"|..];
      assert path == prefix + "/" + suffix;
      SplitAt(prefix, suffix);
    }
    if p <= s && |p| < |s| {
      var rest := s[|p|..];
      assert s == p + rest;
      JoinConcat(p, rest);
      SplitJoins(path);
      SplitJoins(prefix);
      assert prefix + "/" <= path;
    }
  }

  lemma EndsWithSegment(path: string, word: string)
    requires '/' !in word
    ensures EndsWith(path, "/" + word) <==> |Split(path)| > 1 && Split(path)[|Split(path)| - 1] == word
  {
    hide Split;
    var s := Split(path);
    if EndsWith(path, "/" + word) {
      var head := path[..|path| - |word| - 1];
      assert path == head + "/" + word;
      SplitAt(head, word);
      SplitPlain(word);
    }
    if |s| > 1 && s[|s| - 1] == word {
      assert s == s[..|s| - 1] + [word];
      JoinConcat(s[..|s| - 1], [word]);
      SplitJoins(path);
      assert path == Join(s[..|s| - 1]) + "/" + word;
    }
  }

  /** Once the path is closed with a slash, the piece stands between two. */
  ghost predicate BetweenSlashes(path: string, piece: string) {
    exists front: string, back: string :: path + "/" == front + "/" + (piece + "/" + back)
  }

  lemma PieceBetweenSlashes(path: string, piece: string)
    requires '/' !in piece
    ensures piece in Split(path)[1..] <==> BetweenSlashes(path, piece)
  {
    hide Split;
    var s := Split(path);
    SplitAt(path, "");
    assert path + "/" + "" == path + "/";
    assert Split("") == [""] by {
      SplitPlain("");
    }
    if piece in s[1..] {
      var i :| 1 <= i < |s| && s[i] == piece;
      var front, back := s[..i], s[i + 1..] + [""];
      JoinConcat(front, [piece] + back);
      JoinConcat([piece], back);
      assert s + [""] == front + ([piece] + back);
      SplitJoins(path + "/");
      assert path + "/" == Join(front) + "/" + (piece + "/" + Join(back));
    }
    if front: string, back: string :| path + "/" == front + "/" + (piece + "/" + back) {
      SplitAt(front, piece + "/" + back);
      SplitAt(piece, back);
      SplitPlain(piece);
      assert s + [""] == Split(front) + ([piece] + Split(back));
      assert (s + [""])[|Split(front)|] == piece;
      assert s[1..][|Split(front)| - 1] == piece;
    }
  }

  /** Safety as a matter of text: the path starts with a slash, holds no
      backslash, doubles no slash and ends in none, and names neither the
      directory itself nor the one above. */
  lemma SafeExactlyWhen(path: string)
    ensures HasSafeSegments(path) <==>
              && path != "" && path[0] == '/'
              && (forall i :: 0 <= i < |path| ==> path[i] != '\\')
              && !BetweenSlashes(path, "") && !BetweenSlashes(path, ".") && !BetweenSlashes(path, "..")
  {
    hide Split, BetweenSlashes;
    PieceBetweenSlashes(path, "");
    PieceBetweenSlashes(path, ".");
    PieceBetweenSlashes(path, "..");
  }

  // ----- the surfaces' texts -----

  lemma SplitMore(text: string, words: seq<string>, next: string)
    requires Split(text) == words && '/' !in next
    ensures Split(text + "/" + next) == words + [next]
  {
    SplitAt(text, next);
    SplitPlain(next);
  }

  lemma SplitRoot()
    ensures Split("/v1") == ["", "v1"]
  {
    SplitPlain("");
    SplitMore("", [""], "v1");
    assert "" + "/" + "v1" == "/v1";
  }

  lemma SplitUnder(word: string, text: string)
    requires '/' !in word && text == "/v1" + "/" + word
    ensures Split(text) == ["", "v1", word]
  {
    hide Split;
    SplitRoot();
    SplitMore("/v1", ["", "v1"], word);
  }

  /** The texts the code compares with are the segments the table is about. */
  lemma SplitText(surface: Surface)
    ensures Split(Text(surface)) == Words(surface)
  {
    hide Split;
    match surface
    case CancellationFees => SplitUnder("cancellation-fees", Text(CancellationFees));
    case Invoices => SplitUnder("invoices", Text(Invoices));
    case Staff => SplitErp("staff");
    case ReservationTypes => SplitErp("reservation-types");
    case Reservations => SplitErp("reservations");
    case Orders => SplitErp("orders");
    case ClientContext => SplitField("client-context");
    case IamUsers =>
      SplitField("iam");
      SplitMore("/v1/field" + "/" + "iam", ["", "v1", "field", "iam"], "users");
    case Objects => SplitExports("objects");
    case Definitions => SplitExports("definitions");
  }

  lemma SplitErp(word: string)
    requires '/' !in word
    ensures Split("/v1/erp" + "/" + word) == ["", "v1", "erp", word]
  {
    hide Split;
    SplitUnder("erp", "/v1/erp");
    SplitMore("/v1/erp", ["", "v1", "erp"], word);
  }

  lemma SplitField(word: string)
    requires '/' !in word
    ensures Split("/v1/field" + "/" + word) == ["", "v1", "field", word]
  {
    hide Split;
    SplitUnder("field", "/v1/field");
    SplitMore("/v1/field", ["", "v1", "field"], word);
  }

  lemma SplitExports(word: string)
    requires '/' !in word
    ensures Split("/v1/bridge" + "/" + "exports" + "/" + word) == ["", "v1", "bridge", "exports", word]
  {
    hide Split;
    SplitUnder("bridge", "/v1/bridge");
    SplitMore("/v1/bridge", ["", "v1", "bridge"], "exports");
    SplitMore("/v1/bridge" + "/" + "exports", ["", "v1", "bridge", "exports"], word);
  }

  /** What the code sees of a surface, in the table's terms. */
  lemma SeenThroughSegments(surface: Surface, path: string)
    ensures path == Text(surface) <==> On(surface, path) && Tail(surface, path) == []
    ensures Below(path, Text(surface)).Some? <==> On(surface, path) && Tail(surface, path) != []
    ensures Below(path, Text(surface)).Some? ==> Below(path, Text(surface)).value == Tail(surface, path)
  {
    hide Split, Text, Words, Below;
    SplitText(surface);
    SameSegmentsSamePath(path, Text(surface));
    BelowIsTail(path, Text(surface));
    if On(surface, path) && Tail(surface, path) == [] {
      assert Split(path) == Words(surface) + Tail(surface, path);
    }
  }

  /** No path is on two surfaces. */
  lemma SurfacesAreApart(a: Surface, b: Surface, path: string)
    requires On(a, path) && On(b, path)
    ensures a == b
  {
    hide Split;
    var s, w, v := Split(path), Words(a), Words(b);
    assert s[2] == w[2];
    assert s[2] == v[2];
    if |w| > 3 && |v| > 3 {
      assert s[3] == w[3];
      assert s[3] == v[3];
      if |w| > 4 && |v| > 4 {
        assert s[4] == w[4];
        assert s[4] == v[4];
      }
    }
  }

  // ----- the code's predicates in the table's terms -----

  /** The path is on the surface with a tail of that shape. */
  predicate Has(surface: Surface, path: string, length: nat) {
    On(surface, path) && |Tail(surface, path)| == length
  }

  /** The text of a safe path says where it is and what follows. */
  predicate Seen(surface: Surface, path: string) {
    && (path == Text(surface) <==> Has(surface, path, 0))
    && (Below(path, Text(surface)).Some? <==> On(surface, path) && !Has(surface, path, 0))
    && (Below(path, Text(surface)).Some? ==> Below(path, Text(surface)).value == Tail(surface, path))
    && (On(surface, path) ==> forall i :: 0 <= i < |Tail(surface, path)| ==> Tail(surface, path)[i] != "")
  }

  lemma SafeIsSeen(surface: Surface, path: string)
    requires HasSafeSegments(path)
    ensures Seen(surface, path)
  {
    hide Split, Below, Text, Words;
    SeenThroughSegments(surface, path);
    if On(surface, path) {
      var t, rest := Tail(surface, path), Split(path)[1..];
      forall i | 0 <= i < |t| ensures t[i] != "" {
        assert rest[|Words(surface)| - 1 + i] == t[i];
        assert t[i] in rest;
      }
    }
  }

  lemma NoSlashOneSegment(text: string)
    ensures '/' !in text <==> |Split(text)| == 1
  {
    hide Split;
    if '/' in text {
      var i :| 0 <= i < |text| && text[i] == '/';
      assert text == text[..i] + "/" + text[i + 1..];
      SplitAt(text[..i], text[i + 1..]);
    } else {
      SplitPlain(text);
    }
  }

  lemma NestedPrefix(path: string, prefix: string)
    ensures prefix + "/" <= path <==> prefix <= path && "/" <= path[|prefix|..]
    ensures prefix + "/" <= path ==> path[|prefix|..][1..] == path[|prefix + "/"|..]
  {
    if prefix <= path && "/" <= path[|prefix|..] {
      assert path == prefix + path[|prefix|..];
      assert path[|prefix|..][0] == '/';
    }
  }

  lemma StaffPaths(path: string)
    requires HasSafeSegments(path)
    ensures IsNonEmptySubpath(path, Text(Staff)) <==> On(Staff, path) && !Has(Staff, path, 0)
    ensures IsStaffMemberPath(path) <==> Has(Staff, path, 1)
    ensures path == Text(Staff) <==> Has(Staff, path, 0)
  {
    SafeIsSeen(Staff, path);
    hide Split, On, Tail, HasSafeSegments, Text;
    var whole := Text(Staff) + "/";
    if whole <= path {
      var suffix := path[|whole|..];
      NoSlashOneSegment(suffix);
      SplitPlain("");
      assert Split(suffix)[0] != "" && suffix != "";
    }
    NestedPrefix(path, Text(Staff));
  }

  lemma IamPaths(path: string)
    requires HasSafeSegments(path)
    ensures path == Text(IamUsers) <==> Has(IamUsers, path, 0)
    ensures path == Invite() <==> Has(IamUsers, path, 1) && Tail(IamUsers, path)[0] == "invite"
    ensures IsFieldIamUserPath(path) <==> Has(IamUsers, path, 1) && Tail(IamUsers, path)[0] != "invite"
    ensures IsFieldIamUserPoliciesPath(path) <==>
              && Has(IamUsers, path, 2) && Tail(IamUsers, path)[0] != "invite" && Tail(IamUsers, path)[1] == "policies"
  {
    SafeIsSeen(IamUsers, path);
    InvitePath(path);
    hide Split, On, Tail, HasSafeSegments, Text, Below, Invite;
  }

  lemma InvitePath(path: string)
    ensures path == Invite() <==> Has(IamUsers, path, 1) && Tail(IamUsers, path)[0] == "invite"
  {
    SplitText(IamUsers);
    hide Split, Text;
    SplitMore(Text(IamUsers), Words(IamUsers), "invite");
    assert Text(IamUsers) + "/" + "invite" == Invite();
    SameSegmentsSamePath(path, Invite());
    if Has(IamUsers, path, 1) && Tail(IamUsers, path)[0] == "invite" {
      assert Tail(IamUsers, path) == ["invite"];
      assert Split(path) == Words(IamUsers) + Tail(IamUsers, path);
    }
  }

  lemma ErpPaths(path: string)
    requires HasSafeSegments(path)
    ensures path == Text(ReservationTypes) <==> Has(ReservationTypes, path, 0)
    ensures IsReservationBillingInvoicePath(path) <==>
              Has(Reservations, path, 2) && Tail(Reservations, path)[1] == "billing-invoice"
    ensures IsOrderDetailPath(path) <==> Has(Orders, path, 1)
    ensures path == Text(ClientContext) <==> Has(ClientContext, path, 0)
  {
    SafeIsSeen(ReservationTypes, path);
    SafeIsSeen(Reservations, path);
    SafeIsSeen(Orders, path);
    SafeIsSeen(ClientContext, path);
    hide Split, On, Tail, HasSafeSegments, Text, Below;
  }

  lemma BridgePaths(path: string)
    requires HasSafeSegments(path)
    ensures path == Text(Definitions) <==> Has(Definitions, path, 0)
    ensures path == Text(Objects) <==> Has(Objects, path, 0)
    ensures IsBridgeExportPath(path) <==>
              || Has(Objects, path, 0) || Has(Definitions, path, 0)
              || (Has(Definitions, path, 2)
                && (Tail(Definitions, path)[1] == "csv" || Tail(Definitions, path)[1] == "render"))
    ensures Has(Objects, path, 0) || Has(Definitions, path, 0) ==> !EndsWith(path, "/render")
    ensures Has(Definitions, path, 2) ==> (EndsWith(path, "/render") <==> Tail(Definitions, path)[1] == "render")
  {
    SafeIsSeen(Objects, path);
    SafeIsSeen(Definitions, path);
    RenderPath(path);
    hide Split, On, Tail, HasSafeSegments, Text, Below, EndsWith;
  }

  lemma RenderPath(path: string)
    ensures Has(Objects, path, 0) || Has(Definitions, path, 0) ==> !EndsWith(path, "/render")
    ensures Has(Definitions, path, 2) ==> (EndsWith(path, "/render") <==> Tail(Definitions, path)[1] == "render")
  {
    hide Split, EndsWith;
    assert "/" + "render" == "/render";
    EndsWithSegment(path, "render");
  }

  lemma FeePaths(path: string)
    requires HasSafeSegments(path)
    ensures path == Text(CancellationFees) <==> Has(CancellationFees, path, 0)
    ensures Below(path, Text(CancellationFees)).Some? <==> On(CancellationFees, path) && !Has(CancellationFees, path, 0)
    ensures Below(path, Text(CancellationFees)).Some? ==>
              Below(path, Text(CancellationFees)).value == Tail(CancellationFees, path)
    ensures IsCancellationFeePath(path) <==>
              || Has(CancellationFees, path, 0) || Has(CancellationFees, path, 1)
              || (Has(CancellationFees, path, 2)
                  && (Tail(CancellationFees, path)[1] == "fulfill" || Tail(CancellationFees, path)[1] == "send"))
  {
    SafeIsSeen(CancellationFees, path);
    hide Split, On, Tail, HasSafeSegments, Text, Below;
  }

  lemma InvoicePaths(path: string)
    requires HasSafeSegments(path)
    ensures path == Text(Invoices) <==> Has(Invoices, path, 0)
    ensures Below(path, Text(Invoices)).Some? <==> On(Invoices, path) && !Has(Invoices, path, 0)
    ensures Below(path, Text(Invoices)).Some? ==> Below(path, Text(Invoices)).value == Tail(Invoices, path)
    ensures IsInvoicePath(path) <==>
              || Has(Invoices, path, 0) || Has(Invoices, path, 1)
              || (Has(Invoices, path, 2) && Tail(Invoices, path)[1] == "fulfill")
  {
    SafeIsSeen(Invoices, path);
    hide Split, On, Tail, HasSafeSegments, Text, Below;
  }

  // ----- the code is the table -----

  /** The table's answer for a path on the surface. */
  predicate Listed(verb: Verb, path: string, surface: Surface) {
    On(surface, path) && verb in Verbs(surface, Tail(surface, path))
  }

  lemma FeeVerbsAre(verb: Verb, tail: seq<string>)
    ensures verb in Verbs(CancellationFees, tail) <==>
              || (|tail| == 0 && (verb == Get || verb == Post))
              || (|tail| == 1 && (verb == Get || verb == Patch))
              || ((Named(tail, "fulfill") || Named(tail, "send")) && verb == Post)
  {
    hide StaffVerbs, DefinitionVerbs, IamVerbs, InvoiceVerbs;
  }

  lemma InvoiceVerbsAre(verb: Verb, tail: seq<string>)
    ensures verb in Verbs(Invoices, tail) <==>
              || (|tail| == 0 && (verb == Get || verb == Post))
              || (|tail| == 1 && (verb == Get || verb == Patch))
              || (Named(tail, "fulfill") && verb == Post)
  {
    hide StaffVerbs, DefinitionVerbs, IamVerbs, FeeVerbs;
  }

  lemma IamVerbsAre(verb: Verb, tail: seq<string>)
    ensures verb in Verbs(IamUsers, tail) <==>
              || (|tail| == 0 && verb == Get)
              || (|tail| == 1 && tail[0] == "invite" && verb == Post)
              || (|tail| == 1 && tail[0] != "invite" && verb == Delete)
              || (Named(tail, "policies") && tail[0] != "invite" && verb == Put)
  {
    hide StaffVerbs, DefinitionVerbs, FeeVerbs, InvoiceVerbs;
  }

  lemma DefinitionVerbsAre(verb: Verb, tail: seq<string>)
    ensures verb in Verbs(Definitions, tail) <==>
              || (|tail| == 0 && (verb == Get || verb == Post))
              || (Named(tail, "csv") && verb == Get)
              || (Named(tail, "render") && verb == Post)
  {
    hide StaffVerbs, IamVerbs, FeeVerbs, InvoiceVerbs;
  }

  lemma ObjectVerbsAre(verb: Verb, path: string)
    ensures Listed(verb, path, Objects) <==> Has(Objects, path, 0) && verb == Get
  {
    hide Split, Words, On, Tail, StaffVerbs, DefinitionVerbs, IamVerbs, FeeVerbs, InvoiceVerbs;
  }

  lemma StaffCalls(verb: Verb, path: string)
    requires HasSafeSegments(path)
    ensures path == Text(Staff) || IsNonEmptySubpath(path, Text(Staff)) <==> On(Staff, path)
    ensures IsStaffMemberPath(path) ==> IsNonEmptySubpath(path, Text(Staff)) && path != Text(Staff)
    ensures Listed(verb, path, Staff) <==>
              || (path == Text(Staff) && (verb == Get || verb == Post))
              || (IsStaffMemberPath(path) && (verb == Patch || verb == Delete))
              || (path != Text(Staff) && !IsStaffMemberPath(path)
                  && IsNonEmptySubpath(path, Text(Staff)) && verb == Post)
  {
    StaffPaths(path);
    hide HasSafeSegments, Split, Words, On, Tail, Text, IsNonEmptySubpath, IsStaffMemberPath, DefinitionVerbs,
         IamVerbs, FeeVerbs, InvoiceVerbs;
  }

  lemma IamCalls(verb: Verb, path: string)
    requires HasSafeSegments(path)
    ensures IsFieldIamPath(path) ==> On(IamUsers, path)
    ensures path == Text(IamUsers) ==>
              path != Invite() && !IsFieldIamUserPoliciesPath(path) && !IsFieldIamUserPath(path)
    ensures path == Invite() ==> !IsFieldIamUserPoliciesPath(path) && !IsFieldIamUserPath(path)
    ensures !IsFieldIamUserPoliciesPath(path) || !IsFieldIamUserPath(path)
    ensures Listed(verb, path, IamUsers) <==>
              || (path == Text(IamUsers) && verb == Get)
              || (path == Invite() && verb == Post)
              || (IsFieldIamUserPoliciesPath(path) && verb == Put)
              || (IsFieldIamUserPath(path) && verb == Delete)
  {
    IamPaths(path);
    if On(IamUsers, path) {
      IamVerbsAre(verb, Tail(IamUsers, path));
    }
    hide Verbs, HasSafeSegments, Split, Words, On, Tail, Text, Invite, IsFieldIamUserPath, IsFieldIamUserPoliciesPath,
         StaffVerbs, DefinitionVerbs, FeeVerbs, InvoiceVerbs;
  }

  lemma ErpCalls(verb: Verb, path: string)
    requires HasSafeSegments(path)
    ensures path == Text(ReservationTypes) ==> On(ReservationTypes, path)
    ensures Listed(verb, path, ReservationTypes) <==> path == Text(ReservationTypes) && verb == Get
    ensures IsReservationBillingInvoicePath(path) ==> On(Reservations, path)
    ensures Listed(verb, path, Reservations) <==> IsReservationBillingInvoicePath(path) && verb == Post
    ensures IsOrderDetailPath(path) ==> On(Orders, path)
    ensures Listed(verb, path, Orders) <==> IsOrderDetailPath(path) && verb == Get
    ensures path == Text(ClientContext) ==> On(ClientContext, path)
    ensures Listed(verb, path, ClientContext) <==> path == Text(ClientContext) && verb == Get
  {
    ErpPaths(path);
    hide HasSafeSegments, Split, Words, On, Tail, Text, IsReservationBillingInvoicePath, IsOrderDetailPath,
         StaffVerbs, DefinitionVerbs, IamVerbs, FeeVerbs, InvoiceVerbs;
  }

  lemma BridgeCalls(verb: Verb, path: string)
    requires HasSafeSegments(path)
    ensures IsBridgeExportPath(path) ==> On(Objects, path) || On(Definitions, path)
    ensures On(Objects, path) ==>
              (Listed(verb, path, Objects) <==> IsBridgeExportPath(path) && IsBridgeExportCall(verb, path))
    ensures On(Definitions, path) ==>
              (Listed(verb, path, Definitions) <==> IsBridgeExportPath(path) && IsBridgeExportCall(verb, path))
  {
    BridgePaths(path);
    if On(Objects, path) && On(Definitions, path) {
      SurfacesAreApart(Objects, Definitions, path);
    }
    if On(Definitions, path) {
      DefinitionVerbsAre(verb, Tail(Definitions, path));
    }
    ObjectVerbsAre(verb, path);
    hide Verbs, HasSafeSegments, Split, Words, On, Tail, Text, EndsWith, IsBridgeExportPath,
         StaffVerbs, IamVerbs, FeeVerbs, InvoiceVerbs;
  }

  lemma FeeCalls(verb: Verb, path: string)
    requires HasSafeSegments(path)
    ensures IsCancellationFeePath(path) ==> On(CancellationFees, path)
    ensures Listed(verb, path, CancellationFees) <==> IsCancellationFeePath(path) && IsCancellationFeeCall(verb, path)
  {
    FeePaths(path);
    if On(CancellationFees, path) {
      FeeVerbsAre(verb, Tail(CancellationFees, path));
    }
    hide Verbs, HasSafeSegments, Split, Words, On, Tail, Text, Below, IsCancellationFeePath,
         StaffVerbs, DefinitionVerbs, IamVerbs, InvoiceVerbs;
  }

  lemma InvoiceCalls(verb: Verb, path: string)
    requires HasSafeSegments(path)
    ensures IsInvoicePath(path) ==> On(Invoices, path)
    ensures Listed(verb, path, Invoices) <==> IsInvoicePath(path) && IsInvoiceCall(verb, path)
  {
    InvoicePaths(path);
    if On(Invoices, path) {
      InvoiceVerbsAre(verb, Tail(Invoices, path));
    }
    hide Verbs, HasSafeSegments, Split, Words, On, Tail, Text, Below, IsInvoicePath,
         StaffVerbs, DefinitionVerbs, IamVerbs, FeeVerbs;
  }

  /** The path is on this surface and on no other. */
  predicate OnlyOn(surface: Surface, path: string) {
    && On(surface, path)
    && (On(Staff, path) <==> surface == Staff) && (On(ReservationTypes, path) <==> surface == ReservationTypes)
    && (On(Reservations, path) <==> surface == Reservations) && (On(Orders, path) <==> surface == Orders)
    && (On(Objects, path) <==> surface == Objects) && (On(Definitions, path) <==> surface == Definitions)
    && (On(IamUsers, path) <==> surface == IamUsers) && (On(ClientContext, path) <==> surface == ClientContext)
    && (On(CancellationFees, path) <==> surface == CancellationFees) && (On(Invoices, path) <==> surface == Invoices)
  }

  lemma OnIsOnlyOn(surface: Surface, path: string)
    requires On(surface, path)
    ensures OnlyOn(surface, path)
  {
    hide On;
    forall other: Surface | On(other, path) ensures other == surface {
      SurfacesAreApart(surface, other, path);
    }
  }

  lemma AllowedIsListed(verb: Verb, path: string, surface: Surface)
    requires HasSafeSegments(path) && OnlyOn(surface, path)
    ensures IsAllowedRoute(verb, path) <==> Listed(verb, path, surface)
  {
    StaffCalls(verb, path);
    IamCalls(verb, path);
    ErpCalls(verb, path);
    BridgeCalls(verb, path);
    FeeCalls(verb, path);
    InvoiceCalls(verb, path);
    hide HasSafeSegments, On, Text, Invite, Listed,
         IsNonEmptySubpath, IsStaffMemberPath, IsFieldIamUserPath, IsFieldIamUserPoliciesPath,
         IsReservationBillingInvoicePath, IsOrderDetailPath, IsBridgeExportPath, IsCancellationFeePath, IsInvoicePath,
         IsBridgeExportCall, IsCancellationFeeCall, IsInvoiceCall;
  }

  lemma NowhereIsRefused(verb: Verb, path: string)
    requires HasSafeSegments(path) && forall surface: Surface :: !On(surface, path)
    ensures !IsAllowedRoute(verb, path)
  {
    StaffCalls(verb, path);
    IamCalls(verb, path);
    ErpCalls(verb, path);
    BridgeCalls(verb, path);
    FeeCalls(verb, path);
    InvoiceCalls(verb, path);
    hide HasSafeSegments, On, Text, Invite, Listed,
         IsNonEmptySubpath, IsStaffMemberPath, IsFieldIamUserPath, IsFieldIamUserPoliciesPath,
         IsReservationBillingInvoicePath, IsOrderDetailPath, IsBridgeExportPath, IsCancellationFeePath, IsInvoicePath,
         IsBridgeExportCall, IsCancellationFeeCall, IsInvoiceCall;
  }

  /** For every method and path the ordered early returns decide what the table
      says: the path is safe and some surface lists the call. */
  lemma AllowedRouteIsTabled(verb: Verb, path: string)
    ensures IsAllowedRoute(verb, path) <==>
              HasSafeSegments(path) && exists surface: Surface :: Listed(verb, path, surface)
  {
    if HasSafeSegments(path) {
      if surface: Surface :| On(surface, path) {
        OnIsOnlyOn(surface, path);
        AllowedIsListed(verb, path, surface);
        hide HasSafeSegments, On, Tail, Verbs, OnlyOn, IsAllowedRoute;
        forall other: Surface | On(other, path) ensures other == surface {
          SurfacesAreApart(surface, other, path);
        }
      } else {
        NowhereIsRefused(verb, path);
      }
    }
  }

  /** The calls that change permissions are exactly the allowed calls on the
      IAM surface that do more than read it. */
  lemma PermissionChangesAreAllowed(verb: Verb, path: string)
    requires HasSafeSegments(path)
    ensures ChangesPermissions(verb, path) <==> IsAllowedRoute(verb, path) && On(IamUsers, path) && verb != Get
  {
    IamCalls(verb, path);
    if On(IamUsers, path) {
      OnIsOnlyOn(IamUsers, path);
      AllowedIsListed(verb, path, IamUsers);
    }
    hide HasSafeSegments, On, Text, Invite, OnlyOn, Listed, IsAllowedRoute, IsFieldIamUserPath,
         IsFieldIamUserPoliciesPath;
  }
}
