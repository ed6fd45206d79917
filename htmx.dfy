// The HTMX endpoints of day 23: a lit star, a present whose colour cycles
// through red, blue and purple, and an ornament that toggles on and off.
// Escaping of the path segments is done by a foreign HTML encoder; it is a
// function parameter here, and what the lemmas need of it is stated as a
// predicate on it.

module Htmx {
  import opened Http
  import opened Text

  /** The `/23/star` answer: always the same lit star, with 200. */
  const StarHtml: string := "<div id=\"star\" class=\"lit\"></div>"

  method Day23Task2() returns (r: Response)
    ensures r == Response(Ok, "<div id=\"star\" class=\"lit\"></div>")
  {
    r := Response(Ok, StarHtml);
  }

  // ------------------------------------------------------------------ escaping

  /** The path segments the handlers recognise. */
  const Tokens: set<string> := {"red", "blue", "purple", "on", "off"}

  /**
   * What the lemmas assume of the HTML encoder: it leaves each recognised
   * token as it is, and only a token itself escapes to a token. Escaping
   * writes `&`, `<` and `>` as entities that contain `&`, which no token
   * does.
   */
  ghost predicate EscapeFaithful(escape: string -> string)
  {
    (forall t :: t in Tokens ==> escape(t) == t) &&
    (forall s :: escape(s) in Tokens ==> s == escape(s))
  }

  // ------------------------------------------------------------ colour cycle

  /** The colour map of `/23/present/{color}`, each colour to the next one. */
  const Colours: map<string, string> := map["red" := "blue", "blue" := "purple", "purple" := "red"]

  /** The map is a cycle of length three over red, blue and purple. */
  lemma ColourCycle()
    ensures Colours.Keys == {"red", "blue", "purple"}
    ensures Colours.Values == Colours.Keys
    ensures forall c :: c in Colours ==> Colours[c] != c && Colours[Colours[c]] != c
    ensures forall c :: c in Colours ==> Colours[Colours[Colours[c]]] == c
  {
    assert Colours.Keys == {"red", "blue", "purple"};
    forall c | c in Colours
      ensures Colours[c] in Colours && Colours[c] != c && Colours[Colours[c]] != c
      ensures Colours[Colours[Colours[c]]] == c
    {
      assert c == "red" || c == "blue" || c == "purple";
    }
  }

  const Indent: string := "    "
  const Ribbon: string := Indent + Indent + Indent + Indent + Indent + "<div class=\"ribbon\"></div>"
  const PresentClose: string := Indent + Indent + Indent + Indent + "</div>"

  function PresentOpen(colour: string, next: string): string
  {
    "<div class=\"present " + colour + "\" hx-get=\"/23/present/" + next + "\" hx-swap=\"outerHTML\">"
  }

  /** The present: an opening line, four ribbon lines and the closing line. */
  function PresentLineList(colour: string, next: string): seq<string>
  {
    [PresentOpen(colour, next), Ribbon, Ribbon, Ribbon, Ribbon, PresentClose]
  }

  function PresentHtml(colour: string, next: string): string
  {
    Join(PresentLineList(colour, next), '\n')
  }

  /** The answer to `/23/present/{color}`. */
  function PresentResponse(escape: string -> string, colour: string): Response
  {
    var c := escape(colour);
    if c in Colours then Response(Ok, PresentHtml(c, Colours[c]))
    else Response(ImATeapot, "")
  }

  /**
   * The handler: the map is filled by three insertions, then the escaped
   * colour is looked up.
   */
  method Day23Task3(escape: string -> string, colour: string) returns (r: Response)
    ensures r == PresentResponse(escape, colour)
  {
    var colourMap: map<string, string> := map[];
    colourMap := colourMap["red" := "blue"];
    colourMap := colourMap["blue" := "purple"];
    colourMap := colourMap["purple" := "red"];
    assert colourMap == Colours;
    var c := escape(colour);
    if c in colourMap {
      var next := colourMap[c];
      r := Response(Ok, PresentHtml(c, next));
    } else {
      r := Response(ImATeapot, "");
    }
  }

  /** Whatever the encoder does, a colour outside the map is 418 with no body, and a known one 200. */
  lemma PresentStatus(escape: string -> string, colour: string)
    ensures PresentResponse(escape, colour).status == ImATeapot <==> escape(colour) !in Colours
    ensures PresentResponse(escape, colour).status == ImATeapot ==> PresentResponse(escape, colour).body == ""
    ensures PresentResponse(escape, colour).status in {Ok, ImATeapot}
  {
  }

  /** With a faithful encoder, exactly red, blue and purple are answered, each linking to the next colour. */
  lemma PresentAnswer(escape: string -> string, colour: string)
    requires EscapeFaithful(escape)
    ensures PresentResponse(escape, colour).status == Ok <==> colour in {"red", "blue", "purple"}
    ensures colour in Colours ==> PresentResponse(escape, colour) == Response(Ok, PresentHtml(colour, Colours[colour]))
  {
    if colour in {"red", "blue", "purple"} {
      assert colour in Tokens;
    }
  }

  /** Clicking a present three times shows the first present again. */
  lemma PresentThreeClicks(escape: string -> string, colour: string)
    requires EscapeFaithful(escape)
    requires colour in Colours
    ensures PresentResponse(escape, Colours[Colours[Colours[colour]]]) == PresentResponse(escape, colour)
  {
    ColourCycle();
  }

  /**
   * When neither the colour nor the next colour holds a line break, the
   * HTML splits back into its six lines: the opening `div` with class
   * `present {colour}` and the link to the next colour, four ribbons and the
   * closing `div`.
   */
  lemma PresentLines(colour: string, next: string)
    requires '\n' !in colour && '\n' !in next
    ensures Split(PresentHtml(colour, next), '\n') == PresentLineList(colour, next)
    ensures |Split(PresentHtml(colour, next), '\n')| == 6
    ensures forall i :: 1 <= i < 5 ==> Split(PresentHtml(colour, next), '\n')[i] == Ribbon
  {
    var lines := PresentLineList(colour, next);
    var open := PresentOpen(colour, next);
    assert '\n' !in open by {
      assert open == "<div class=\"present " + colour + "\" hx-get=\"/23/present/" + next + "\" hx-swap=\"outerHTML\">";
      forall i | 0 <= i < |open| ensures open[i] != '\n' {
      }
    }
    assert '\n' !in Indent;
    assert '\n' !in "<div class=\"ribbon\"></div>";
    assert '\n' !in "</div>";
    assert forall i :: 0 <= i < |lines| ==> '\n' !in lines[i];
    SplitJoin(lines, '\n');
  }

  // --------------------------------------------------------- ornament toggle

  /** The state the ornament's link asks for next. */
  function NextState(state: string): string
  {
    if state == "on" then "off" else "on"
  }

  /** Toggling swaps on and off and so undoes itself. */
  lemma NextStateToggles(state: string)
    requires state == "on" || state == "off"
    ensures NextState(state) != state
    ensures NextState(state) == "on" || NextState(state) == "off"
    ensures NextState(NextState(state)) == state
  {
  }

  /** The ornament's class: `ornament`, with ` on` added when it is lit. */
  function OrnamentClass(state: string): string
  {
    if state == "on" then "ornament on" else "ornament"
  }

  lemma OrnamentClassLit(state: string)
    requires state == "on" || state == "off"
    ensures OrnamentClass(state) == "ornament on" <==> state == "on"
    ensures OrnamentClass(state) == "ornament" <==> state == "off"
  {
  }

  function OrnamentHtml(cls: string, n: string, next: string): string
  {
    "<div class=\"" + cls + "\" id=\"ornament" + n
      + "\" hx-trigger=\"load delay:2s once\" hx-get=\"/23/ornament/" + next + "/" + n
      + "\" hx-swap=\"outerHTML\"></div>"
  }

  /** The answer to `/23/ornament/{state}/{n}`. */
  function OrnamentResponse(escape: string -> string, state: string, n: string): Response
  {
    var s := escape(state);
    if s != "on" && s != "off" then Response(ImATeapot, "")
    else Response(Ok, OrnamentHtml(OrnamentClass(s), escape(n), NextState(s)))
  }

  /** The handler: the class is grown from `ornament` when the ornament is lit. */
  method Day23Task4(escape: string -> string, state: string, n: string) returns (r: Response)
    ensures r == OrnamentResponse(escape, state, n)
  {
    var s := escape(state);
    var id := escape(n);
    if s != "on" && s != "off" {
      return Response(ImATeapot, "");
    }
    var next := if s == "on" then "off" else "on";
    var cls := "ornament";
    if s == "on" {
      cls := cls + [' '];
      cls := cls + "on";
    }
    r := Response(Ok, OrnamentHtml(cls, id, next));
  }

  /** Whatever the encoder does, a state other than on or off is 418 with no body, and on or off 200. */
  lemma OrnamentStatus(escape: string -> string, state: string, n: string)
    ensures OrnamentResponse(escape, state, n).status == ImATeapot <==> escape(state) !in {"on", "off"}
    ensures OrnamentResponse(escape, state, n).status == ImATeapot ==> OrnamentResponse(escape, state, n).body == ""
    ensures OrnamentResponse(escape, state, n).status in {Ok, ImATeapot}
  {
  }

  /**
   * With a faithful encoder, exactly on and off are answered; the ornament
   * is lit exactly when the state is on, its id is `ornament{n}` and its
   * link asks for the other state.
   */
  lemma OrnamentAnswer(escape: string -> string, state: string, n: string)
    requires EscapeFaithful(escape)
    ensures OrnamentResponse(escape, state, n).status == Ok <==> state in {"on", "off"}
    ensures state in {"on", "off"} ==>
      OrnamentResponse(escape, state, n) ==
        Response(Ok, OrnamentHtml(if state == "on" then "ornament on" else "ornament", escape(n),
                                  if state == "on" then "off" else "on"))
  {
    if state in {"on", "off"} {
      assert state in Tokens;
    }
  }

  /** Two toggles show the same ornament again. */
  lemma OrnamentTwoToggles(escape: string -> string, state: string, n: string)
    requires EscapeFaithful(escape)
    requires state == "on" || state == "off"
    ensures OrnamentResponse(escape, NextState(NextState(state)), n) == OrnamentResponse(escape, state, n)
    ensures OrnamentResponse(escape, NextState(state), n) != OrnamentResponse(escape, state, n)
  {
    NextStateToggles(state);
    var s' := NextState(state);
    assert s' in Tokens && state in Tokens;
    var h := OrnamentResponse(escape, state, n).body;
    var h' := OrnamentResponse(escape, s', n).body;
    assert |h| != |h'|;
  }
}
