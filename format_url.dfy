/**
 * Endpoint URL templates: the catalog stores URLs such as
 * "http://host:8774/v1/$(tenant_id)s" and substitutes the request's values
 * into them by turning every "$(" into "%(" and applying Python's
 * mapping-based %-formatting.
 */
module FormatUrl {
  import opened Wrappers
  import opened Values

  /** The outcome of formatting one endpoint URL. */
  datatype Formatted =
    | Text(url: string)      // the substituted URL
    | NoTemplate             // the stored URL is not a string: the URL is None
    | Malformed              // KeyError, TypeError or ValueError: MalformedEndpoint
    | Unmodelled             // a directive whose rendering the model does not fix

  /** Python `s.replace('$(', '%(')`. */
  function ReplaceDollar(s: string): (r: string)
    ensures |r| == |s|
  {
    if |s| >= 2 && s[0] == '$' && s[1] == '(' then "%(" + ReplaceDollar(s[2..])
    else if s == [] then []
    else [s[0]] + ReplaceDollar(s[1..])
  }

  /** After the replacement no "$(" is left. */
  lemma {:induction false} ReplaceDollarLeavesNone(s: string)
    ensures forall i :: 0 <= i < |ReplaceDollar(s)| - 1 ==>
      !(ReplaceDollar(s)[i] == '$' && ReplaceDollar(s)[i + 1] == '(')
  {
    if |s| >= 2 && s[0] == '$' && s[1] == '(' {
      ReplaceDollarLeavesNone(s[2..]);
    } else if s != [] {
      ReplaceDollarLeavesNone(s[1..]);
      var r := ReplaceDollar(s);
      var t := ReplaceDollar(s[1..]);
      assert r == [s[0]] + t;
      if |s| >= 2 && s[0] == '$' {
        // s[1] is not '(' and the replacement never writes '(' where there was none
        ReplaceDollarHead(s[1..]);
      }
    }
  }

  lemma ReplaceDollarHead(s: string)
    requires s != [] && s[0] != '('
    ensures ReplaceDollar(s)[0] != '('
  {
  }

  /** Characters other than '$' are never rewritten. */
  lemma {:induction false} ReplaceDollarKeeps(s: string)
    ensures forall i :: 0 <= i < |s| && s[i] != '$' ==> ReplaceDollar(s)[i] == s[i]
  {
    if |s| >= 2 && s[0] == '$' && s[1] == '(' {
      ReplaceDollarKeeps(s[2..]);
      forall i | 0 <= i < |s| && s[i] != '$' ensures ReplaceDollar(s)[i] == s[i] {
        if i >= 2 { assert s[i] == s[2..][i - 2]; }
      }
    } else if s != [] {
      ReplaceDollarKeeps(s[1..]);
      forall i | 0 <= i < |s| && s[i] != '$' ensures ReplaceDollar(s)[i] == s[i] {
        if i >= 1 { assert s[i] == s[1..][i - 1]; }
      }
    }
  }

  /** A text free of "$(" is left as it is. */
  lemma {:induction false} ReplaceDollarIdentity(s: string)
    requires forall i :: 0 <= i < |s| - 1 ==> !(s[i] == '$' && s[i + 1] == '(')
    ensures ReplaceDollar(s) == s
  {
    if s != [] {
      assert !(|s| >= 2 && s[0] == '$' && s[1] == '(');
      ReplaceDollarIdentity(s[1..]);
    }
  }

  /** The replacement is idempotent. */
  lemma ReplaceDollarIdempotent(s: string)
    ensures ReplaceDollar(ReplaceDollar(s)) == ReplaceDollar(s)
  {
    ReplaceDollarLeavesNone(s);
    ReplaceDollarIdentity(ReplaceDollar(s));
  }

  /** One step of the replacement at a "$(" prefix. */
  lemma ReplaceDollarHoleStep(s: string)
    requires |s| >= 2 && s[0] == '$' && s[1] == '('
    ensures ReplaceDollar(s) == "%(" + ReplaceDollar(s[2..])
  {
  }

  /** One step of the replacement at any other non-empty prefix. */
  lemma ReplaceDollarCharStep(s: string)
    requires s != [] && !(|s| >= 2 && s[0] == '$' && s[1] == '(')
    ensures ReplaceDollar(s) == [s[0]] + ReplaceDollar(s[1..])
  {
  }

  /** The replacement distributes over a concatenation that does not join a '$' to a '('. */
  lemma {:induction false} ReplaceDollarAppend(a: string, b: string)
    requires !(a != [] && a[|a| - 1] == '$' && b != [] && b[0] == '(')
    ensures ReplaceDollar(a + b) == ReplaceDollar(a) + ReplaceDollar(b)
  {
    var ab := a + b;
    if a == [] {
      assert ab == b;
    } else if |a| >= 2 && a[0] == '$' && a[1] == '(' {
      assert ab[0] == '$' && ab[1] == '(' && ab[2..] == a[2..] + b;
      ReplaceDollarAppend(a[2..], b);
      ReplaceDollarHoleStep(ab);
      ReplaceDollarHoleStep(a);
    } else {
      assert ab[0] == a[0] && ab[1..] == a[1..] + b;
      assert |a| == 1 ==> a[1..] == [] && ab[1..] == b;
      assert !(|ab| >= 2 && ab[0] == '$' && ab[1] == '(');
      ReplaceDollarAppend(a[1..], b);
      ReplaceDollarCharStep(ab);
      ReplaceDollarCharStep(a);
    }
  }

  // ----- Python's %-formatting with a mapping argument -----------------------

  /**
   * The length of a mapping key: the text up to the parenthesis that closes
   * the one already opened, counting nested parentheses, or None when the
   * template ends first ("incomplete format key").
   */
  function KeyLength(s: string, depth: nat): (r: Option<nat>)
    requires depth >= 1
    ensures r.Some? ==> r.value < |s| && s[r.value] == ')'
  {
    if s == [] then None
    else if s[0] == ')' then
      (if depth == 1 then Some(0) else Shift(KeyLength(s[1..], depth - 1)))
    else if s[0] == '(' then Shift(KeyLength(s[1..], depth + 1))
    else Shift(KeyLength(s[1..], depth))
  }

  function Shift(r: Option<nat>): Option<nat>
  {
    if r.Some? then Some(r.value + 1) else None
  }

  predicate NoParens(k: string)
  {
    forall i :: 0 <= i < |k| ==> k[i] != '(' && k[i] != ')'
  }

  lemma {:induction false} KeyLengthPlain(k: string, rest: string)
    requires NoParens(k)
    ensures KeyLength(k + ")" + rest, 1) == Some(|k|)
  {
    if k != [] {
      assert (k + ")" + rest)[1..] == k[1..] + ")" + rest;
      KeyLengthPlain(k[1..], rest);
    }
  }

  /** Characters that may follow "%(key)" in Python but that this model does not render. */
  predicate UnmodelledDirective(c: char)
  {
    c in "-+ #0123456789*.hlLrcouxXeEfFgG"
  }

  /** Prepend literal text to an outcome. */
  function Prepend(p: string, o: Formatted): Formatted
  {
    if o.Text? then Text(p + o.url) else o
  }

  /**
   * `template % data` for a dictionary `data`. Supported directives:
   * "%%", "%(key)s", "%(key)d", "%(key)i" and "%(key)%". The first directive
   * that fails decides the outcome, scanning left to right.
   */
  function Interp(f: string, data: Record): Formatted
    decreases |f|
  {
    if f == [] then Text("")
    else if f[0] != '%' then Prepend([f[0]], Interp(f[1..], data))
    else if |f| == 1 then Malformed                        // "incomplete format"
    else if f[1] == '%' then Prepend("%", Interp(f[2..], data))
    else if f[1] != '(' then
      (if UnmodelledDirective(f[1]) || f[1] == 's' || f[1] == 'd' || f[1] == 'i' then Unmodelled
       else Malformed)                                     // "unsupported format character"
    else
      var kl := KeyLength(f[2..], 1);
      if kl.None? then Malformed                           // "incomplete format key"
      else
        var key := f[2..2 + kl.value];
        var rest := f[3 + kl.value..];
        if key !in data then Malformed                     // KeyError
        else if rest == [] then Malformed                  // "incomplete format"
        else
          var v := data[key];
          var c := rest[0];
          if c == 's' then
            (var t := Str(v); if t.None? then Unmodelled else Prepend(t.value, Interp(rest[1..], data)))
          else if c == 'd' || c == 'i' then
            (if IsNumber(v) then Prepend(IntToString(NumberOf(v)), Interp(rest[1..], data))
             else Malformed)                               // TypeError: a number is required
          else if c == '%' then Prepend("%", Interp(rest[1..], data))
          else if UnmodelledDirective(c) then Unmodelled
          else Malformed                                   // "unsupported format character"
  }

  /** keystone.catalog.core.format_url on one stored URL. */
  function Format(url: Value, data: Record): Formatted
  {
    match url
    case VStr(s) => Interp(ReplaceDollar(s), data)
    case _ => NoTemplate                                   // AttributeError: no .replace
  }

  /** Only a URL that is not a string yields no template. */
  lemma FormatNoTemplate(url: Value, data: Record)
    ensures Format(url, data) == NoTemplate <==> !url.VStr?
  {
    if url.VStr? {
      InterpNotNoTemplate(ReplaceDollar(url.s), data);
    }
  }

  lemma {:induction false} InterpNotNoTemplate(f: string, data: Record)
    ensures Interp(f, data) != NoTemplate
    decreases |f|
  {
    if f != [] && f[0] != '%' {
      InterpNotNoTemplate(f[1..], data);
    } else if |f| >= 2 && f[1] == '%' {
      InterpNotNoTemplate(f[2..], data);
    } else if |f| >= 2 && f[1] == '(' {
      var kl := KeyLength(f[2..], 1);
      if kl.Some? {
        var rest := f[3 + kl.value..];
        if rest != [] {
          InterpNotNoTemplate(rest[1..], data);
        }
      }
    }
  }

  // ----- templates as token lists ---------------------------------------------

  datatype Conversion = AsString | AsNumber

  /** A piece of an endpoint template: literal text or a substituted key. */
  datatype Token = Lit(text: string) | Hole(key: string, conv: Conversion)

  predicate PlainText(s: string)
  {
    forall i :: 0 <= i < |s| ==> s[i] != '%' && s[i] != '$'
  }

  predicate WellFormed(ts: seq<Token>)
  {
    forall i :: 0 <= i < |ts| ==>
      (ts[i].Lit? ==> PlainText(ts[i].text)) && (ts[i].Hole? ==> NoParens(ts[i].key))
  }

  function ConvChar(c: Conversion): char
  {
    if c == AsString then 's' else 'd'
  }

  /** The template text as stored in the catalog: holes written "$(key)s" or "$(key)d". */
  function Render(ts: seq<Token>, opener: char): string
  {
    if ts == [] then ""
    else
      (match ts[0]
       case Lit(t) => t
       case Hole(k, c) => [opener, '('] + k + [')', ConvChar(c)])
      + Render(ts[1..], opener)
  }

  /** The substitution the template describes, token by token. */
  function Fill(ts: seq<Token>, data: Record): Formatted
  {
    if ts == [] then Text("")
    else match ts[0]
      case Lit(t) => Prepend(t, Fill(ts[1..], data))
      case Hole(k, c) =>
        if k !in data then Malformed
        else if c == AsString then
          (var t := Str(data[k]); if t.None? then Unmodelled else Prepend(t.value, Fill(ts[1..], data)))
        else if IsNumber(data[k]) then Prepend(IntToString(NumberOf(data[k])), Fill(ts[1..], data))
        else Malformed
  }

  lemma PrependAssoc(p: string, q: string, o: Formatted)
    ensures Prepend(p, Prepend(q, o)) == Prepend(p + q, o)
  {
  }

  lemma {:induction false} InterpPlain(t: string, rest: string, data: Record)
    requires PlainText(t)
    ensures Interp(t + rest, data) == Prepend(t, Interp(rest, data))
  {
    if t != [] {
      assert (t + rest)[0] == t[0];
      assert (t + rest)[1..] == t[1..] + rest;
      InterpPlain(t[1..], rest, data);
      PrependAssoc([t[0]], t[1..], Interp(rest, data));
      assert [t[0]] + t[1..] == t;
    } else {
      assert t + rest == rest;
    }
  }

  lemma InterpHole(k: string, c: Conversion, rest: string, data: Record)
    requires NoParens(k)
    ensures Interp(['%', '('] + k + [')', ConvChar(c)] + rest, data) ==
      if k !in data then Malformed
      else if c == AsString then
        (var t := Str(data[k]); if t.None? then Unmodelled else Prepend(t.value, Interp(rest, data)))
      else if IsNumber(data[k]) then Prepend(IntToString(NumberOf(data[k])), Interp(rest, data))
      else Malformed
  {
    var f := ['%', '('] + k + [')', ConvChar(c)] + rest;
    assert f[2..] == k + ")" + ([ConvChar(c)] + rest);
    KeyLengthPlain(k, [ConvChar(c)] + rest);
    assert f[2..2 + |k|] == k;
    assert f[3 + |k|..] == [ConvChar(c)] + rest;
  }

  /** Interpretation of a "%("-rendered template followed by any text. */
  lemma {:induction false} InterpRendered(ts: seq<Token>, tail: string, data: Record)
    requires WellFormed(ts)
    ensures Interp(Render(ts, '%') + tail, data) ==
      (var o := Fill(ts, data); if o.Text? then Prepend(o.url, Interp(tail, data)) else o)
  {
    if ts == [] {
      assert Render(ts, '%') + tail == tail;
    } else {
      var rest := Render(ts[1..], '%') + tail;
      assert WellFormed(ts[1..]) by {
        forall i | 0 <= i < |ts[1..]| ensures
          (ts[1..][i].Lit? ==> PlainText(ts[1..][i].text)) && (ts[1..][i].Hole? ==> NoParens(ts[1..][i].key))
        {
          assert ts[1..][i] == ts[i + 1];
        }
      }
      InterpRendered(ts[1..], tail, data);
      match ts[0]
      case Lit(t) =>
        assert Render(ts, '%') + tail == t + rest;
        InterpPlain(t, rest, data);
        if Fill(ts[1..], data).Text? {
          PrependAssoc(t, Fill(ts[1..], data).url, Interp(tail, data));
        }
      case Hole(k, c) =>
        assert Render(ts, '%') + tail == ['%', '('] + k + [')', ConvChar(c)] + rest;
        InterpHole(k, c, rest, data);
        if k in data {
          if !Fill(ts[1..], data).Text? {
          } else if c == AsString && Str(data[k]).Some? {
            PrependAssoc(Str(data[k]).value, Fill(ts[1..], data).url, Interp(tail, data));
          } else if c == AsNumber && IsNumber(data[k]) {
            PrependAssoc(IntToString(NumberOf(data[k])), Fill(ts[1..], data).url, Interp(tail, data));
          }
        }
    }
  }

  /** Replacing "$(" by "%(" turns the stored form of a template into its "%(" form. */
  lemma {:induction false} ReplaceDollarRender(ts: seq<Token>)
    requires WellFormed(ts)
    ensures ReplaceDollar(Render(ts, '$')) == Render(ts, '%')
  {
    if ts != [] {
      assert WellFormed(ts[1..]) by {
        forall i | 0 <= i < |ts[1..]| ensures
          (ts[1..][i].Lit? ==> PlainText(ts[1..][i].text)) && (ts[1..][i].Hole? ==> NoParens(ts[1..][i].key))
        {
          assert ts[1..][i] == ts[i + 1];
        }
      }
      ReplaceDollarRender(ts[1..]);
      var tail := Render(ts[1..], '$');
      match ts[0]
      case Lit(t) => ReplaceDollarLit(t, tail);
      case Hole(k, c) => ReplaceDollarHole(k, c, tail);
    }
  }

  /** Plain text before a stored template is left alone. */
  lemma ReplaceDollarLit(t: string, tail: string)
    requires PlainText(t)
    ensures ReplaceDollar(t + tail) == t + ReplaceDollar(tail)
  {
    if t != [] {
      assert t[|t| - 1] != '$';
    }
    ReplaceDollarAppend(t, tail);
    ReplaceDollarIdentity(t);
  }

  /** A stored hole "$(key)c" becomes "%(key)c". */
  lemma ReplaceDollarHole(k: string, c: Conversion, tail: string)
    requires NoParens(k)
    ensures ReplaceDollar(['$', '('] + k + [')', ConvChar(c)] + tail) == ['%', '('] + k + [')', ConvChar(c)] + ReplaceDollar(tail)
  {
    var h := ['$', '('] + k + [')', ConvChar(c)];
    ReplaceDollarAppend(h, tail);
    assert h[2..] == k + [')', ConvChar(c)];
    ReplaceDollarIdentity(k + [')', ConvChar(c)]);
  }

  /**
   * The substitution theorem: formatting a stored template substitutes every
   * key from the data, and fails with MalformedEndpoint at the first key the
   * data lacks or the first "%d" key that is not a number.
   */
  lemma FormatTemplate(ts: seq<Token>, data: Record)
    requires WellFormed(ts)
    ensures Format(VStr(Render(ts, '$')), data) == Fill(ts, data)
    ensures Format(VStr(Render(ts, '%')), data) == Fill(ts, data)
  {
    ReplaceDollarRender(ts);
    InterpRendered(ts, "", data);
    assert Render(ts, '%') + "" == Render(ts, '%');
    ReplaceDollarIdentityRendered(ts);
  }

  lemma {:induction false} ReplaceDollarIdentityRendered(ts: seq<Token>)
    requires WellFormed(ts)
    ensures ReplaceDollar(Render(ts, '%')) == Render(ts, '%')
  {
    ReplaceDollarRender(ts);
    ReplaceDollarIdempotent(Render(ts, '$'));
  }

  /** "$(" and "%(" are interchangeable in a stored URL. */
  lemma DollarEquivalent(url: string, data: Record)
    ensures Format(VStr(ReplaceDollar(url)), data) == Format(VStr(url), data)
  {
    ReplaceDollarIdempotent(url);
  }

  /**
   * A URL with no '%' and no "$(" is returned unchanged, whatever the data:
   * a lone '$' or a brace template such as "{tenant_id}" is plain text.
   */
  lemma PlainUrlUnchanged(url: string, data: Record)
    requires forall i :: 0 <= i < |url| ==> url[i] != '%'
    requires forall i :: 0 <= i < |url| - 1 ==> !(url[i] == '$' && url[i + 1] == '(')
    ensures Format(VStr(url), data) == Text(url)
  {
    ReplaceDollarIdentity(url);
    InterpNoPercent(url, data);
  }

  /** Text without '%' interpolates to itself. */
  lemma {:induction false} InterpNoPercent(s: string, data: Record)
    requires forall i :: 0 <= i < |s| ==> s[i] != '%'
    ensures Interp(s, data) == Text(s)
    decreases |s|
  {
    if s != [] {
      InterpNoPercent(s[1..], data);
      assert [s[0]] + s[1..] == s;
    }
  }

  /** "$(key)" with no conversion character after it is malformed, whether or not the key is known. */
  lemma KeyWithoutConversion(k: string, data: Record)
    requires NoParens(k)
    ensures Format(VStr("$(" + k + ")"), data) == Malformed
  {
    ReplaceDollarOpenKey(k);
    InterpOpenKey(k, data);
  }

  lemma ReplaceDollarOpenKey(k: string)
    requires NoParens(k)
    ensures ReplaceDollar("$(" + k + ")") == "%(" + k + ")"
  {
    var u := "$(" + k + ")";
    ReplaceDollarHoleStep(u);
    assert u[2..] == k + ")";
    ReplaceDollarIdentity(k + ")");
  }

  lemma InterpOpenKey(k: string, data: Record)
    requires NoParens(k)
    ensures Interp("%(" + k + ")", data) == Malformed
  {
    var f := "%(" + k + ")";
    assert f[2..] == k + ")" + "";
    KeyLengthPlain(k, "");
    assert f[3 + |k|..] == [];
  }

  /** A template that ends in a lone '%' is malformed once its directives succeed. */
  lemma TrailingPercent(ts: seq<Token>, data: Record)
    requires WellFormed(ts)
    ensures Format(VStr(Render(ts, '$') + "%"), data) ==
      (if Fill(ts, data).Text? then Malformed else Fill(ts, data))
  {
    var s := Render(ts, '$');
    if s != [] {
      ReplaceDollarRender(ts);
      RenderLastNotDollar(ts);
    }
    ReplaceDollarAppend(s, "%");
    assert ReplaceDollar("%") == "%";
    ReplaceDollarRender(ts);
    InterpRendered(ts, "%", data);
  }

  lemma {:induction false} RenderLastNotDollar(ts: seq<Token>)
    requires WellFormed(ts)
    ensures Render(ts, '$') != [] ==> Render(ts, '$')[|Render(ts, '$')| - 1] != '$'
  {
    if ts != [] {
      assert WellFormed(ts[1..]) by {
        forall i | 0 <= i < |ts[1..]| ensures
          (ts[1..][i].Lit? ==> PlainText(ts[1..][i].text)) && (ts[1..][i].Hole? ==> NoParens(ts[1..][i].key))
        {
          assert ts[1..][i] == ts[i + 1];
        }
      }
      RenderLastNotDollar(ts[1..]);
      match ts[0]
      case Lit(t) =>
        if t != [] { assert t[|t| - 1] != '$'; }
      case Hole(k, c) =>
    }
  }

  /** A key whose closing parenthesis never comes is malformed. */
  lemma UnterminatedKey(k: string, data: Record)
    requires NoParens(k) && PlainText(k)
    ensures Format(VStr("$(" + k), data) == Malformed
  {
    ReplaceDollarIdentity(k);
    assert ReplaceDollar("$(" + k) == "%(" + k by {
      assert ("$(" + k)[2..] == k;
    }
    KeyLengthNone(k);
    assert ("%(" + k)[2..] == k;
  }

  lemma {:induction false} KeyLengthNone(k: string)
    requires NoParens(k)
    ensures KeyLength(k, 1) == None
  {
    if k != [] {
      KeyLengthNone(k[1..]);
    }
  }
}
