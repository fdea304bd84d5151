/**
  The toast document that send_message posts to every channel: two text
  elements, an optional hero image, the app-logo override and an optional
  launch attribute, spliced into a fixed XML template without escaping.
*/
module Toast {
  import opened Wrappers

  const LaunchKey := "launch"
  const HeroKey := "hero"
  const LogoKey := "logo"

  const DefaultLogo := "https://raw.githubusercontent.com/" + "home-assistant/home-assistant-iOS/" + "master/icons/release_1024.png"

  /** The pieces of the template, in document order. */
  // Long literals are written as concatenations of short ones.
  const ToastOpen := "<?xml version=\"1.0\" encoding=\"utf-8\"?>" + "\n        <toast"
  const LaunchOpen := " launch=\""
  const Quote := "\""
  const BindingOpen := ">\n            <visual>" + "\n                <binding template=\"ToastGeneric\">" + "\n                    "
  const TextOpen := "<text>"
  const TextSep := "</text><text>"
  const TextClose := "</text>"
  const HeroOpen := "<image src=\""
  const HeroClose := "\" placement=\"hero\" />"
  const LogoOpen := "\n                    <image src=\""
  const ToastClose := "\" " + "                    placement=\"appLogoOverride\"" + " hint-crop=\"circle\" />"
    + "\n                </binding>" + "\n            </visual>" + "\n        </toast>"

  /** What a toast shows: the parts send_message chooses before it renders the body. */
  datatype Toast = Toast(launch: Option<string>, title: string, message: string, hero: Option<string>, logo: string)

  /** Python truthiness of `data.get(key)` for a string-valued data dict. */
  predicate Present(data: map<string, string>, key: string)
  {
    key in data && data[key] != ""
  }

  /** The choices send_message makes from its optional `data`. */
  function ToastFor(title: string, message: string, data: map<string, string>): (t: Toast)
    ensures t.title == title && t.message == message
    ensures t.launch.Some? <==> Present(data, LaunchKey)
    ensures t.launch.Some? ==> t.launch.value == data[LaunchKey]
    ensures t.hero.Some? <==> Present(data, HeroKey)
    ensures t.hero.Some? ==> t.hero.value == data[HeroKey]
    ensures t.logo == if LogoKey in data then data[LogoKey] else DefaultLogo
  {
    if data == map[] then Toast(None, title, message, None, DefaultLogo)
    else
      Toast(
        if Present(data, LaunchKey) then Some(data[LaunchKey]) else None,
        title, message,
        if Present(data, HeroKey) then Some(data[HeroKey]) else None,
        if LogoKey in data then data[LogoKey] else DefaultLogo)
  }

  function LaunchAttribute(launch: Option<string>): string
  {
    if launch.Some? then LaunchOpen + launch.value + Quote else ""
  }

  function HeroElement(hero: Option<string>): string
  {
    if hero.Some? then HeroOpen + hero.value + HeroClose else ""
  }

  /** The body string of the POST. */
  function Render(t: Toast): string
  {
    ToastOpen + (LaunchAttribute(t.launch) + ((BindingOpen + TextOpen)
      + (t.title + (TextSep + (t.message + (TextClose + (HeroElement(t.hero)
      + (LogoOpen + (t.logo + ToastClose)))))))))
  }

  /**
    send_message's composition, step by step: `content` grows by `+=`,
    `launch` and `app_logo` start at their defaults and are reassigned
    when `data` is non-empty.
  */
  method ComposeBody(title: string, message: string, data: map<string, string>) returns (body: string)
    ensures body == Render(ToastFor(title, message, data))
  {
    var content := TextOpen + title + TextSep + message + TextClose;
    ghost var texts := content;
    var launch := "";
    var appLogo := DefaultLogo;
    if data != map[] {
      if Present(data, LaunchKey) {
        launch := LaunchOpen + data[LaunchKey] + Quote;
      }
      if Present(data, HeroKey) {
        content := content + HeroOpen + data[HeroKey] + HeroClose;
      }
      if LogoKey in data {
        appLogo := data[LogoKey];
      }
    }
    body := ToastOpen + launch + BindingOpen + content + LogoOpen + appLogo + ToastClose;
    ghost var t := ToastFor(title, message, data);
    assert launch == LaunchAttribute(t.launch);
    assert content == texts + HeroElement(t.hero);
    assert appLogo == t.logo;
    AssembleBody(t, launch, texts, content);
  }

  /** Regrouping of the concatenations that ComposeBody performs. */
  lemma AssembleBody(t: Toast, launch: string, texts: string, content: string)
    requires launch == LaunchAttribute(t.launch)
    requires texts == TextOpen + t.title + TextSep + t.message + TextClose
    requires content == texts + HeroElement(t.hero)
    ensures ToastOpen + launch + BindingOpen + content + LogoOpen + t.logo + ToastClose == Render(t)
  {
    Regroup(ToastOpen, launch, BindingOpen, TextOpen, t.title, TextSep, t.message, TextClose,
      HeroElement(t.hero), LogoOpen, t.logo, ToastClose);
  }

  lemma Regroup(a: string, b: string, c: string, d: string, e: string, f: string,
                g: string, h: string, i: string, j: string, k: string, l: string)
    ensures a + b + c + (d + e + f + g + h + i) + j + k + l
         == a + (b + ((c + d) + (e + (f + (g + (h + (i + (j + (k + l)))))))))
  {
  }

  // Reading a body back.

  function StripPrefix(p: string, s: string): (r: Option<string>)
    ensures r.Some? <==> p <= s
    ensures r.Some? ==> s == p + r.value
  {
    if p <= s then Some(s[|p|..]) else None
  }

  /** Splits `s` before the first `c`. */
  function SplitAt(s: string, c: char): (r: Option<(string, string)>)
    ensures r.None? <==> c !in s
    ensures r.Some? ==> s == r.value.0 + r.value.1 && c !in r.value.0 && r.value.1 != [] && r.value.1[0] == c
  {
    if s == [] then None
    else if s[0] == c then Some(([], s))
    else
      match SplitAt(s[1..], c)
      case None => None
      case Some(p) =>
        assert s == [s[0]] + s[1..];
        Some(([s[0]] + p.0, p.1))
  }

  lemma {:induction false} SplitAtJoin(a: string, b: string, c: char)
    requires c !in a
    requires b != [] && b[0] == c
    ensures SplitAt(a + b, c) == Some((a, b))
  {
    if a == [] {
      assert a + b == b;
    } else {
      assert (a + b)[0] == a[0];
      assert (a + b)[1..] == a[1..] + b;
      SplitAtJoin(a[1..], b, c);
      assert [a[0]] + a[1..] == a;
    }
  }

  lemma StripPrefixJoin(p: string, s: string)
    ensures StripPrefix(p, p + s) == Some(s)
  {
  }

  function ParseLaunch(s: string): Option<(Option<string>, string)>
  {
    match StripPrefix(LaunchOpen, s)
    case None => Some((None, s))
    case Some(r) =>
      var split :- SplitAt(r, '"');
      var rest :- StripPrefix(Quote, split.1);
      Some((Some(split.0), rest))
  }

  function ParseHero(s: string): Option<(Option<string>, string)>
  {
    match StripPrefix(HeroOpen, s)
    case None => Some((None, s))
    case Some(r) =>
      var split :- SplitAt(r, '"');
      var rest :- StripPrefix(HeroClose, split.1);
      Some((Some(split.0), rest))
  }

  /** Reads the chosen parts back out of a body produced by the template. */
  function Parse(body: string): Option<Toast>
  {
    var afterOpen :- StripPrefix(ToastOpen, body);
    var launch :- ParseLaunch(afterOpen);
    var afterBinding :- StripPrefix(BindingOpen + TextOpen, launch.1);
    var title :- SplitAt(afterBinding, '<');
    var afterSep :- StripPrefix(TextSep, title.1);
    var message :- SplitAt(afterSep, '<');
    var afterText :- StripPrefix(TextClose, message.1);
    var hero :- ParseHero(afterText);
    var afterLogoOpen :- StripPrefix(LogoOpen, hero.1);
    var logo :- SplitAt(afterLogoOpen, '"');
    if logo.1 == ToastClose then Some(Toast(launch.0, title.0, message.0, hero.0, logo.0)) else None
  }

  /** No part closes the element or attribute it is spliced into (nothing is escaped). */
  predicate Plain(t: Toast)
  {
    && '<' !in t.title && '<' !in t.message
    && (t.launch.Some? ==> '"' !in t.launch.value)
    && (t.hero.Some? ==> '"' !in t.hero.value)
    && '"' !in t.logo
  }

  lemma ParseLaunchJoin(launch: Option<string>, rest: string)
    requires launch.Some? ==> '"' !in launch.value
    requires rest != [] && rest[0] == '>'
    ensures ParseLaunch(LaunchAttribute(launch) + rest) == Some((launch, rest))
  {
    if launch.Some? {
      var s := LaunchAttribute(launch) + rest;
      assert s == LaunchOpen + (launch.value + (Quote + rest));
      StripPrefixJoin(LaunchOpen, launch.value + (Quote + rest));
      SplitAtJoin(launch.value, Quote + rest, '"');
      StripPrefixJoin(Quote, rest);
    } else {
      assert LaunchAttribute(launch) + rest == rest;
      assert rest[0] != LaunchOpen[0];
    }
  }

  lemma ParseHeroJoin(hero: Option<string>, rest: string)
    requires hero.Some? ==> '"' !in hero.value
    requires rest != [] && rest[0] == '\n'
    ensures ParseHero(HeroElement(hero) + rest) == Some((hero, rest))
  {
    if hero.Some? {
      var s := HeroElement(hero) + rest;
      assert s == HeroOpen + (hero.value + (HeroClose + rest));
      StripPrefixJoin(HeroOpen, hero.value + (HeroClose + rest));
      SplitAtJoin(hero.value, HeroClose + rest, '"');
      StripPrefixJoin(HeroClose, rest);
    } else {
      assert HeroElement(hero) + rest == rest;
      assert rest[0] != HeroOpen[0];
    }
  }

  /** A body with plain parts can be read back into exactly the parts it was rendered from. */
  lemma ParseRender(t: Toast)
    requires Plain(t)
    ensures Parse(Render(t)) == Some(t)
  {
    var tail4 := LogoOpen + (t.logo + ToastClose);
    var tail3 := HeroElement(t.hero) + tail4;
    var tail2 := t.message + (TextClose + tail3);
    var tail1 := t.title + (TextSep + tail2);
    var afterOpen := LaunchAttribute(t.launch) + ((BindingOpen + TextOpen) + tail1);
    StripPrefixJoin(ToastOpen, afterOpen);
    assert BindingOpen[0] == '>';
    ParseLaunchJoin(t.launch, (BindingOpen + TextOpen) + tail1);
    StripPrefixJoin(BindingOpen + TextOpen, tail1);
    SplitAtJoin(t.title, TextSep + tail2, '<');
    StripPrefixJoin(TextSep, tail2);
    SplitAtJoin(t.message, TextClose + tail3, '<');
    StripPrefixJoin(TextClose, tail3);
    assert LogoOpen[0] == '\n';
    ParseHeroJoin(t.hero, tail4);
    StripPrefixJoin(LogoOpen, t.logo + ToastClose);
    SplitAtJoin(t.logo, ToastClose, '"');
  }

  /**
    The posted body shows the launch attribute exactly when `data` has a
    non-empty launch value, the hero image exactly when it has a non-empty
    hero value, and the data's logo whenever it names one.
  */
  lemma BodyShowsChoices(title: string, message: string, data: map<string, string>)
    requires '<' !in title && '<' !in message
    requires forall k :: k in data ==> '"' !in data[k]
    ensures Parse(Render(ToastFor(title, message, data))) == Some(ToastFor(title, message, data))
  {
    DefaultLogoIsPlain();
    ParseRender(ToastFor(title, message, data));
  }

  lemma DefaultLogoIsPlain()
    ensures '"' !in DefaultLogo
  {
  }

  /** Without data the body has no launch attribute, no hero image and the default logo. */
  lemma NoDataBody(title: string, message: string)
    requires '<' !in title && '<' !in message
    ensures Parse(Render(ToastFor(title, message, map[]))) == Some(Toast(None, title, message, None, DefaultLogo))
  {
    DefaultLogoIsPlain();
    ParseRender(Toast(None, title, message, None, DefaultLogo));
  }
}
