/**
 * The boot script generator of the diskless-boot server: a fixed four-line
 * iPXE script whose only variable part is the identity written into the
 * DISKLESS_HOME_NAME kernel parameter (server/http/index.js:20-25).
 *
 * The template is a dedented template literal; after dedent it is the
 * constant text below, with no leading or trailing newline.
 */
module BootScript {

  import opened Wrappers

  /** The kernel parameter that carries the identity, as it appears in the script. */
  const Marker: string := "DISKLESS_HOME_NAME="

  /**
   * The four lines of the script, the kernel line split at the identity.
   * The kernel line is written in groups of parameters; the text is the
   * same as the one-line template.
   */
  const Shebang: string := "#!ipxe"
  const KernelLead: string := "kernel /boot/vmlinuz initrd=initrd.img " + "overlayroot=tmpfs:recurse=0 " + "systemd.setenv="
  const KernelHead: string := KernelLead + Marker
  const KernelTail: string := " quiet splash vt.handoff=7"
  const InitrdLine: string := "initrd /boot/initrd.img"
  const BootLine: string := "boot"

  /** Everything before the identity, and everything after it. */
  const Prefix: string := Shebang + "\n" + KernelHead
  const Suffix: string := KernelTail + "\n" + InitrdLine + "\n" + BootLine

  /** The second line of the script for a given identity. */
  function KernelLine(identity: string): (line: string)
  {
    KernelHead + identity + KernelTail
  }

  /**
   * The script served to a machine whose identity is `identity`: the fixed
   * prefix, the identity verbatim, the fixed suffix.
   */
  function Generate(identity: string): (script: string)
    ensures |script| == |Prefix| + |identity| + |Suffix|
    ensures script[..|Prefix|] == Prefix
    ensures script[|Prefix|..|Prefix| + |identity|] == identity
    ensures script[|Prefix| + |identity|..] == Suffix
  {
    Prefix + identity + Suffix
  }

  /**
   * The inverse of Generate: the identity a script was generated for, or
   * None when the text is not of the template's shape.
   */
  function Strip(script: string): (r: Option<string>)
    ensures r.Some? ==> Generate(r.value) == script
  {
    if |script| >= |Prefix| + |Suffix|
       && script[..|Prefix|] == Prefix
       && script[|script| - |Suffix|..] == Suffix
    then
      SplitAround(script, Prefix, Suffix);
      Some(script[|Prefix|..|script| - |Suffix|])
    else
      None
  }

  /** A text that starts with `head` and ends with `tail` is head, middle, tail. */
  lemma SplitAround(s: string, head: string, tail: string)
    requires |s| >= |head| + |tail| && s[..|head|] == head && s[|s| - |tail|..] == tail
    ensures head + s[|head|..|s| - |tail|] + tail == s
  {
    assert s == s[..|head|] + s[|head|..|s| - |tail|] + s[|s| - |tail|..];
  }

  /** Round trip: the identity is recovered from the script it produced. */
  lemma StripGenerate(identity: string)
    ensures Strip(Generate(identity)) == Some(identity)
  {
    var script := Generate(identity);
    assert script[|Prefix|..|script| - |Suffix|] == identity;
  }

  /** Different identities give different scripts. */
  lemma GenerateInjective(a: string, b: string)
    requires Generate(a) == Generate(b)
    ensures a == b
  {
    StripGenerate(a);
    StripGenerate(b);
  }

  /** The script split at line feeds, as `split("\n")` does. */
  function Lines(s: string): (lines: seq<string>)
    ensures |lines| >= 1
    ensures forall i :: 0 <= i < |lines| ==> '\n' !in lines[i]
    ensures Unlines(lines) == s
    decreases |s|
  {
    if s == [] then [""]
    else
      var rest := Lines(s[1..]);
      if s[0] == '\n' then
        [""] + rest
      else
        var lines := [[s[0]] + rest[0]] + rest[1..];
        assert Unlines(lines) == s by {
          if |rest| > 1 {
            assert Unlines(rest) == rest[0] + "\n" + Unlines(rest[1..]);
            assert lines[1..] == rest[1..];
          }
          assert s == [s[0]] + s[1..];
        }
        lines
  }

  /** The lines joined with line feeds, the inverse of Lines. */
  function Unlines(lines: seq<string>): (s: string)
    decreases |lines|
  {
    if lines == [] then ""
    else if |lines| == 1 then lines[0]
    else lines[0] + "\n" + Unlines(lines[1..])
  }

  lemma {:induction false} LinesOfLine(a: string)
    requires '\n' !in a
    ensures Lines(a) == [a]
    decreases |a|
  {
    if a != [] {
      LinesOfLine(a[1..]);
      assert [a[0]] + a[1..] == a;
    }
  }

  /** A line without line feed, a line feed, then more text. */
  lemma {:induction false} LinesOfJoined(a: string, b: string)
    requires '\n' !in a
    ensures Lines(a + "\n" + b) == [a] + Lines(b)
    decreases |a|
  {
    var s := a + "\n" + b;
    if a == [] {
      assert s[1..] == b;
    } else {
      assert s[1..] == a[1..] + "\n" + b;
      LinesOfJoined(a[1..], b);
      assert [a[0]] + a[1..] == a;
    }
  }

  /** A character absent from two strings is absent from their concatenation. */
  lemma NotInConcat(c: char, a: string, b: string)
    requires c !in a && c !in b
    ensures c !in a + b
  {
    forall i | 0 <= i < |a + b|
      ensures (a + b)[i] != c
    {
      if i < |a| {
        assert (a + b)[i] == a[i];
      } else {
        assert (a + b)[i] == b[i - |a|];
      }
    }
  }

  /** Four lines without line feeds, joined by line feeds, split back apart. */
  lemma LinesOfFour(a: string, b: string, c: string, d: string)
    requires '\n' !in a && '\n' !in b && '\n' !in c && '\n' !in d
    ensures Lines(a + "\n" + (b + "\n" + (c + "\n" + d))) == [a, b, c, d]
  {
    LinesOfJoined(a, b + "\n" + (c + "\n" + d));
    LinesOfJoined(b, c + "\n" + d);
    LinesOfJoined(c, d);
    LinesOfLine(d);
  }

  /** Regrouping of the script's pieces into its lines. */
  lemma RegroupLines(sh: string, kh: string, identity: string, kt: string, il: string, bl: string)
    ensures (sh + "\n" + kh) + identity + (kt + "\n" + il + "\n" + bl)
         == sh + "\n" + ((kh + identity + kt) + "\n" + (il + "\n" + bl))
  {
  }

  /** No line of the template contains a line feed. */
  lemma TemplateLinesAreLines()
    ensures '\n' !in Shebang && '\n' !in KernelHead && '\n' !in KernelTail
    ensures '\n' !in InitrdLine && '\n' !in BootLine
  {
    KernelLeadIsOneLine();
    NotInConcat('\n', KernelLead, Marker);
  }

  lemma KernelLeadIsOneLine()
    ensures '\n' !in KernelLead
  {
  }

  /**
   * For an identity without a line feed the script has exactly four lines:
   * the iPXE header, the kernel line carrying the identity, the initrd line
   * and the boot command.
   */
  lemma ScriptLines(identity: string)
    requires '\n' !in identity
    ensures Lines(Generate(identity)) == [Shebang, KernelLine(identity), InitrdLine, BootLine]
  {
    TemplateLinesAreLines();
    NotInConcat('\n', KernelHead, identity);
    NotInConcat('\n', KernelHead + identity, KernelTail);
    RegroupLines(Shebang, KernelHead, identity, KernelTail, InitrdLine, BootLine);
    LinesOfFour(Shebang, KernelLine(identity), InitrdLine, BootLine);
  }

  /** `pattern` occurs in `s` starting at index `i`. */
  predicate OccursAt(pattern: string, s: string, i: int)
  {
    0 <= i && i + |pattern| <= |s| && s[i..i + |pattern|] == pattern
  }

  /**
   * A pattern whose first character appears nowhere else around it, and
   * that does not contain the first character after `middle`, occurs in
   * `lead + pattern + middle + tail` only where it was placed, when
   * `middle` does not contain it.
   */
  lemma OnlyPlacedOccurrence(lead: string, pattern: string, middle: string, tail: string)
    requires |pattern| > 0 && |tail| > 0
    requires pattern[0] !in lead && pattern[0] !in pattern[1..] && pattern[0] !in tail
    requires tail[0] !in pattern
    requires forall i :: !OccursAt(pattern, middle, i)
    ensures forall i :: OccursAt(pattern, lead + pattern + middle + tail, i) ==> i == |lead|
  {
    var s := lead + pattern + middle + tail;
    var p := |lead| + |pattern|;
    forall i | 0 <= i && i + |pattern| <= |s| && i != |lead|
      ensures !OccursAt(pattern, s, i)
    {
      var window := s[i..i + |pattern|];
      assert window[0] == s[i];
      if i < |lead| {
        assert s[i] == lead[i];
      } else if i < p {
        assert s[i] == pattern[1..][i - |lead| - 1];
      } else if i + |pattern| <= p + |middle| {
        assert window == middle[i - p..i - p + |pattern|];
        assert !OccursAt(pattern, middle, i - p);
      } else if i < p + |middle| {
        assert s[p + |middle|] == tail[0];
        assert window[p + |middle| - i] == s[p + |middle|];
      } else {
        assert s[i] == tail[i - p - |middle|];
      }
    }
  }

  /**
   * The identity parameter starts with a character that the rest of the
   * template never uses, and the text after the identity starts with a
   * character the parameter does not contain.
   */
  lemma MarkerIsDistinct()
    ensures Prefix == (Shebang + "\n" + KernelLead) + Marker
    ensures Marker[0] !in Shebang + "\n" + KernelLead
    ensures Marker[0] !in Marker[1..] && Marker[0] !in Suffix
    ensures |Suffix| > 0 && Suffix[0] !in Marker
  {
    MarkerStartsKernelParameter();
    MarkerStartIsUnique();
  }

  lemma MarkerStartsKernelParameter()
    ensures Marker[0] == 'D' && 'D' !in Shebang + "\n" + KernelLead
  {
  }

  lemma MarkerStartIsUnique()
    ensures 'D' !in Marker[1..] && 'D' !in Suffix && Suffix[0] == ' ' && ' ' !in Marker
  {
  }

  /**
   * The identity parameter appears exactly once in the script, right before
   * the identity, unless the identity itself spells it.
   */
  lemma MarkerOccursOnce(identity: string)
    requires forall i :: !OccursAt(Marker, identity, i)
    ensures OccursAt(Marker, Generate(identity), |Prefix| - |Marker|)
    ensures forall i :: OccursAt(Marker, Generate(identity), i) ==> i == |Prefix| - |Marker|
  {
    MarkerIsDistinct();
    OnlyPlacedOccurrence(Shebang + "\n" + KernelLead, Marker, identity, Suffix);
    assert Generate(identity)[|Prefix| - |Marker|..|Prefix|] == Prefix[|Prefix| - |Marker|..];
  }
}
