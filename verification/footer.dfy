/**
 The footer's quick links: every link goes to `/` followed by its label
 lowered, with each maximal run of whitespace replaced by one `-`.
 */
module Footer {
  import opened Text

  const CompanyLinks: seq<string> := ["About", "Our Mission", "Our Team", "Careers", "Contact Us"]
  const ServiceLinks: seq<string> :=
    ["Carbon Calculator", "Carbon Offset", "Trading Process", "For Businesses", "For Individuals"]
  const ResourceLinks: seq<string> := ["News", "FAQs", "Documentation", "Privacy Policy", "Terms & Conditions"]

  /**
   The slug of `text` read from left to right; `inRun` says the character
   before `text` was whitespace, so its run already produced its `-`. A
   whitespace character opens a run (writing `-`) or continues one (writing
   nothing); any other character is written lowered and closes the run.
   */
  function SlugFrom(text: string, inRun: bool): string
    decreases |text|
  {
    if text == [] then []
    else Written(text[0], inRun) + SlugFrom(text[1..], IsWhitespace(text[0]))
  }

  /** What one character writes: `-` when it opens a run, nothing when it continues one, else itself lowered. */
  function Written(c: char, inRun: bool): (r: string)
    ensures NoWhitespace(r)
  {
    if !IsWhitespace(c) then [LowerChar(c)]
    else if inRun then []
    else "-"
  }

  /**
   `label.toLowerCase().replace(/\s+/g, '-')`: no whitespace survives, the slug
   is never longer than the label, and it is empty only for the empty label.
   */
  function Slug(text: string): (r: string)
    ensures NoWhitespace(r)
    ensures |r| <= |text|
    ensures r == [] <==> text == []
  {
    SlugHasNoWhitespace(text, false);
    SlugNoLonger(text, false);
    SlugFrom(text, false)
  }

  /** The `href` of a footer link. */
  function Href(text: string): (h: string)
    ensures |h| >= 1 && h[0] == '/' && h[1..] == Slug(text)
  {
    "/" + Slug(text)
  }

  /** Whether the scan is inside a whitespace run after reading `x`. */
  function InRunAfter(x: string, inRun: bool): bool {
    if x == [] then inRun else IsWhitespace(x[|x| - 1])
  }

  /** The scan of a concatenation is the scan of each part, the second continuing where the first stopped. */
  lemma {:induction false} SlugFromAppend(x: string, y: string, inRun: bool)
    ensures SlugFrom(x + y, inRun) == SlugFrom(x, inRun) + SlugFrom(y, InRunAfter(x, inRun))
    decreases |x|
  {
    if x != [] {
      SlugFromAppend(x[1..], y, IsWhitespace(x[0]));
      AppendStep(x, y, inRun);
    } else {
      assert x + y == y;
    }
  }

  /** The step of `SlugFromAppend` for a non-empty `x`, given the property for the rest of `x`. */
  lemma AppendStep(x: string, y: string, inRun: bool)
    requires x != []
    requires SlugFrom(x[1..] + y, IsWhitespace(x[0]))
          == SlugFrom(x[1..], IsWhitespace(x[0])) + SlugFrom(y, InRunAfter(x[1..], IsWhitespace(x[0])))
    ensures SlugFrom(x + y, inRun) == SlugFrom(x, inRun) + SlugFrom(y, InRunAfter(x, inRun))
  {
    var next := IsWhitespace(x[0]);
    var after := InRunAfter(x, inRun);
    assert InRunAfter(x[1..], next) == after by {
      if x[1..] != [] {
        assert x[1..][|x[1..]| - 1] == x[|x| - 1];
      }
    }
    UnfoldAppend(x, y, inRun);
    AppendAssoc(Written(x[0], inRun), SlugFrom(x[1..], next), SlugFrom(y, after));
  }

  /** One step of the scan over `x + y`, at the first character of `x`. */
  lemma UnfoldAppend(x: string, y: string, inRun: bool)
    requires x != []
    ensures SlugFrom(x + y, inRun) == Written(x[0], inRun) + SlugFrom(x[1..] + y, IsWhitespace(x[0]))
  {
    assert (x + y)[0] == x[0];
    assert (x + y)[1..] == x[1..] + y;
  }

  /** A whole run writes one `-` when it opens, and nothing when it continues one. */
  lemma {:induction false} SlugOfWhitespace(w: string, inRun: bool)
    requires w != [] && AllWhitespace(w)
    ensures SlugFrom(w, inRun) == if inRun then [] else "-"
    decreases |w|
  {
    if |w| > 1 {
      assert AllWhitespace(w[1..]) by {
        forall i | 0 <= i < |w| - 1
          ensures IsWhitespace(w[1..][i])
        {
          assert w[1..][i] == w[i + 1];
        }
      }
      SlugOfWhitespace(w[1..], true);
    }
  }

  /** Text that does not open with whitespace reads the same whether or not a run came before it. */
  lemma SlugFromVisibleStart(b: string, inRun: bool)
    requires b == [] || !IsWhitespace(b[0])
    ensures SlugFrom(b, inRun) == Slug(b)
  {
  }

  /**
   A maximal whitespace run between two parts becomes exactly one `-` between
   their slugs: the run `w` follows a character of `a` that is not whitespace
   (or the start) and precedes one of `b` (or the end).
   */
  lemma SlugOfRun(a: string, w: string, b: string)
    requires a == [] || !IsWhitespace(a[|a| - 1])
    requires w != [] && AllWhitespace(w)
    requires b == [] || !IsWhitespace(b[0])
    ensures Slug(a + w + b) == Slug(a) + "-" + Slug(b)
  {
    SlugFromAppend(a + w, b, false);
    SlugFromAppend(a, w, false);
    SlugOfWhitespace(w, false);
    assert InRunAfter(a + w, false) by {
      assert (a + w)[|a + w| - 1] == w[|w| - 1];
    }
    SlugFromVisibleStart(b, true);
  }

  /** No whitespace survives: every run became a `-`. */
  lemma {:induction false} SlugHasNoWhitespace(text: string, inRun: bool)
    ensures NoWhitespace(SlugFrom(text, inRun))
    decreases |text|
  {
    if text != [] {
      var next := IsWhitespace(text[0]);
      var tail := SlugFrom(text[1..], next);
      SlugHasNoWhitespace(text[1..], next);
      var head := Written(text[0], inRun);
      var r := SlugFrom(text, inRun);
      assert r == head + tail;
      forall i | 0 <= i < |r|
        ensures !IsWhitespace(r[i])
      {
        if i >= |head| {
          assert r[i] == tail[i - |head|];
        }
      }
    }
  }

  /** The slug is never longer than the label, and empty only for the empty label. */
  lemma {:induction false} SlugNoLonger(text: string, inRun: bool)
    ensures |SlugFrom(text, inRun)| <= |text|
    ensures !inRun ==> (SlugFrom(text, inRun) == [] <==> text == [])
    decreases |text|
  {
    if text != [] {
      SlugNoLonger(text[1..], IsWhitespace(text[0]));
    }
  }

  /** A label without whitespace is only lowered. */
  lemma {:induction false} SlugWithoutWhitespace(s: string, inRun: bool)
    requires NoWhitespace(s)
    ensures SlugFrom(s, inRun) == Lower(s)
    decreases |s|
  {
    if s != [] {
      assert NoWhitespace(s[1..]) by {
        forall i | 0 <= i < |s| - 1
          ensures !IsWhitespace(s[1..][i])
        {
          assert s[1..][i] == s[i + 1];
        }
      }
      SlugWithoutWhitespace(s[1..], false);
      assert s == [s[0]] + s[1..];
      LowerAppend([s[0]], s[1..]);
    }
  }

  /** Drops the whitespace and the dashes, the characters the slug rule adds or removes. */
  function Visible(s: string): (r: string)
    ensures NoWhitespace(r)
    ensures |r| <= |s|
  {
    if s == [] then []
    else if IsWhitespace(s[0]) || s[0] == '-' then Visible(s[1..])
    else [s[0]] + Visible(s[1..])
  }

  /** Every other character survives, lowered and in its order. */
  lemma {:induction false} SlugKeepsVisibleOrder(s: string, inRun: bool)
    ensures Visible(SlugFrom(s, inRun)) == Lower(Visible(s))
    decreases |s|
  {
    if s != [] {
      var next := IsWhitespace(s[0]);
      var tail := SlugFrom(s[1..], next);
      SlugKeepsVisibleOrder(s[1..], next);
      if next {
        if !inRun {
          assert ("-" + tail)[1..] == tail;
        } else {
          assert [] + tail == tail;
        }
      } else {
        assert ([LowerChar(s[0])] + tail)[1..] == tail;
        if s[0] != '-' {
          LowerAppend([s[0]], Visible(s[1..]));
        }
      }
    }
  }

  /** Two words with one space between them. */
  lemma TwoWords(a: string, b: string)
    requires a != [] && b != [] && NoWhitespace(a) && NoWhitespace(b)
    ensures Href(a + " " + b) == "/" + Lower(a) + "-" + Lower(b)
  {
    SlugOfTwoWords(a, b);
    assert "/" + (Lower(a) + "-" + Lower(b)) == "/" + Lower(a) + "-" + Lower(b);
  }

  lemma SlugOfTwoWords(a: string, b: string)
    requires a != [] && b != [] && NoWhitespace(a) && NoWhitespace(b)
    ensures Slug(a + " " + b) == Lower(a) + "-" + Lower(b)
  {
    SlugOfRun(a, " ", b);
    SlugWithoutWhitespace(a, false);
    SlugWithoutWhitespace(b, false);
  }

  /** Three words with one space between each two. */
  lemma ThreeWords(a: string, b: string, c: string)
    requires a != [] && b != [] && c != [] && NoWhitespace(a) && NoWhitespace(b) && NoWhitespace(c)
    ensures Href(a + " " + b + " " + c) == "/" + Lower(a) + "-" + Lower(b) + "-" + Lower(c)
  {
    var x, y, z := Lower(a), Lower(b), Lower(c);
    SlugOfThreeWords(a, b, c);
    assert "/" + (x + "-" + (y + "-" + z)) == "/" + x + "-" + y + "-" + z;
  }

  lemma SlugOfThreeWords(a: string, b: string, c: string)
    requires a != [] && b != [] && c != [] && NoWhitespace(a) && NoWhitespace(b) && NoWhitespace(c)
    ensures Slug(a + " " + b + " " + c) == Lower(a) + "-" + (Lower(b) + "-" + Lower(c))
  {
    var bc := b + " " + c;
    assert bc[0] == b[0];
    SlugOfRun(a, " ", bc);
    SlugWithoutWhitespace(a, false);
    SlugOfTwoWords(b, c);
    assert a + " " + bc == a + " " + b + " " + c;
  }

  lemma ContactUsHref()
    ensures Href("Contact Us") == "/contact-us"
  {
    ContactUsHrefOf("Contact Us");
  }

  lemma TermsHref()
    ensures Href("Terms & Conditions") == "/terms-&-conditions"
  {
    TermsHrefOf("Terms & Conditions");
  }

  // The two proofs below name their label through a parameter: with the label
  // written as a literal inside the proof, the verifier keeps unfolding the
  // scan over the literal instead of using the word lemmas above.

  lemma ContactUsHrefOf(item: string)
    requires item == "Contact Us"
    ensures Href(item) == "/contact-us"
  {
    assert item == "Contact" + " " + "Us";
    TwoWords("Contact", "Us");
    assert Lower("Contact") == "contact";
    assert Lower("Us") == "us";
  }

  lemma TermsHrefOf(item: string)
    requires item == "Terms & Conditions"
    ensures Href(item) == "/terms-&-conditions"
  {
    assert item == "Terms" + " " + "&" + " " + "Conditions";
    ThreeWords("Terms", "&", "Conditions");
    TermsWordsLowered();
  }

  lemma TermsWordsLowered()
    ensures Lower("Terms") == "terms" && Lower("&") == "&" && Lower("Conditions") == "conditions"
    ensures "/" + "terms" + "-" + "&" + "-" + "conditions" == "/terms-&-conditions"
  {
    LowerOfConditions();
  }

  lemma LowerOfConditions()
    ensures Lower("Conditions") == "conditions"
  {
  }

  /** The pages the site has, as paths: one per page directory under `src/app`. */
  const Routes: set<string> := {
    "/", "/about", "/calculator", "/carbon-offset", "/careers", "/contact", "/documentation",
    "/faqs", "/for-businesses", "/login", "/news", "/our-mission", "/our-team", "/privacy-policy",
    "/register", "/services", "/terms-conditions", "/trading-process", "/what-we-do"
  }

  /** Neither path is among the site's pages. */
  lemma NotARoute(href: string)
    requires href == "/contact-us" || href == "/terms-&-conditions"
    ensures href !in Routes
  {
  }

  /**
   The contact page lives at `/contact` and the terms page at
   `/terms-conditions`, so the footer's "Contact Us" and "Terms & Conditions"
   links lead to no page.
   */
  lemma UnroutedLinks()
    ensures CompanyLinks[4] == "Contact Us" && ResourceLinks[4] == "Terms & Conditions"
    ensures Href("Contact Us") !in Routes && Href("Terms & Conditions") !in Routes
  {
    ContactUsHref();
    TermsHref();
    NotARoute("/contact-us");
    NotARoute("/terms-&-conditions");
  }

  /**
   The footer with its two dead links pointed at the pages they name: a link
   changes only when its derived path leads nowhere, and then it leads to a page.
   */
  function CorrectedHref(text: string): (h: string)
    ensures h in Routes || h == Href(text)
    ensures h != Href(text) ==> Href(text) !in Routes && h in Routes
  {
    if text == "Contact Us" then
      ContactUsHrefOf(text);
      NotARoute(Href(text));
      "/contact"
    else if text == "Terms & Conditions" then
      TermsHrefOf(text);
      NotARoute(Href(text));
      "/terms-conditions"
    else Href(text)
  }

  /** Corrected, both links lead to their pages, and every other label keeps its path. */
  lemma CorrectedLinksRouted(text: string)
    ensures CorrectedHref("Contact Us") == "/contact" && "/contact" in Routes
    ensures CorrectedHref("Terms & Conditions") == "/terms-conditions" && "/terms-conditions" in Routes
    ensures text != "Contact Us" && text != "Terms & Conditions" ==> CorrectedHref(text) == Href(text)
  {
  }
}
