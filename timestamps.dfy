/**
  The backup folder name: the local time formatted as `yyyyMMdd_HHmmss`.
  The clock is not read here; the time is an input.
 */
module Timestamps {
  import opened Base
  import opened Paths

  /** A local date and time to the second (Gregorian calendar). */
  datatype DateTime = DateTime(year: int, month: int, day: int, hour: int, minute: int, second: int)

  predicate IsValid(t: DateTime) {
    && 1 <= t.year <= 9999 && 1 <= t.month <= 12 && 1 <= t.day <= 31
    && 0 <= t.hour <= 23 && 0 <= t.minute <= 59 && 0 <= t.second <= 59
  }

  /** `t.ToString("yyyyMMdd_HHmmss")`. */
  function BackupStamp(t: DateTime): (s: string)
    requires IsValid(t)
  {
    assert Pow10(2) == 100 && Pow10(4) == 10000;
    Padded(t.year, 4) + Padded(t.month, 2) + Padded(t.day, 2) + "_"
    + Padded(t.hour, 2) + Padded(t.minute, 2) + Padded(t.second, 2)
  }

  /** The stamp is fifteen characters: eight digits, an underscore, six digits. */
  lemma StampShape(t: DateTime)
    requires IsValid(t)
    ensures var s := BackupStamp(t);
      |s| == 15 && s[8] == '_' && IsDigits(s[..8]) && IsDigits(s[9..])
  {
    var s := BackupStamp(t);
    assert Pow10(2) == 100 && Pow10(4) == 10000;
    assert s[..8] == Padded(t.year, 4) + Padded(t.month, 2) + Padded(t.day, 2);
    assert s[9..] == Padded(t.hour, 2) + Padded(t.minute, 2) + Padded(t.second, 2);
  }

  /** The stamp is a single plain folder name, so it adds exactly one level to a path. */
  lemma StampIsPlainName(t: DateTime)
    requires IsValid(t)
    ensures IsPlainName(BackupStamp(t))
  {
    var s := BackupStamp(t);
    StampShape(t);
    forall i | 0 <= i < |s|
      ensures !IsSeparator(s[i])
    {
      if i < 8 {
        assert s[i] == s[..8][i];
      } else if i > 8 {
        assert s[i] == s[9..][i - 9];
      }
    }
  }

  /** Where each field sits in the stamp. */
  lemma StampFields(t: DateTime)
    requires IsValid(t)
    ensures Pow10(2) == 100 && Pow10(4) == 10000
    ensures var s := BackupStamp(t);
      && |s| == 15
      && s[0..4] == Padded(t.year, 4) && s[4..6] == Padded(t.month, 2) && s[6..8] == Padded(t.day, 2)
      && s[9..11] == Padded(t.hour, 2) && s[11..13] == Padded(t.minute, 2) && s[13..15] == Padded(t.second, 2)
  {
    assert Pow10(2) == 100 && Pow10(4) == 10000;
  }

  /** Equal zero-padded renderings of the same width are renderings of the same number. */
  lemma PaddedInjective(a: nat, b: nat, w: nat)
    requires a < Pow10(w) && b < Pow10(w)
    ensures Padded(a, w) == Padded(b, w) ==> a == b
  {
    PaddedValue(a, w);
    PaddedValue(b, w);
  }

  /** Two backups get the same folder name exactly when they start in the same second. */
  lemma StampInjective(a: DateTime, b: DateTime)
    requires IsValid(a) && IsValid(b)
    ensures BackupStamp(a) == BackupStamp(b) <==> a == b
  {
    if BackupStamp(a) == BackupStamp(b) {
      StampFields(a);
      StampFields(b);
      PaddedInjective(a.year, b.year, 4);
      PaddedInjective(a.month, b.month, 2);
      PaddedInjective(a.day, b.day, 2);
      PaddedInjective(a.hour, b.hour, 2);
      PaddedInjective(a.minute, b.minute, 2);
      PaddedInjective(a.second, b.second, 2);
    }
  }
}
