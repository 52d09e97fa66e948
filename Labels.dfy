/**
 * The status label's texts and the rules that choose among them
 * (`on_transcription_started`, `on_transcription_finished`, `update_status`).
 */
module Labels {
  import opened Wrappers
  import opened Paths
  import opened StatusTable

  const IdleLabel := "Status: Idle"
  const QueuePrefix := "Status: Queue: "
  const QueueSuffix := " files waiting"
  const TranscribingPrefix := "Status: Transcribing "

  predicate IsDigit(c: char)
  {
    '0' <= c <= '9'
  }

  predicate AllDigits(s: string)
  {
    forall i :: 0 <= i < |s| ==> IsDigit(s[i])
  }

  function DigitChar(d: nat): (c: char)
    requires d < 10
    ensures IsDigit(c)
  {
    ('0' as int + d) as char
  }

  function DigitValue(c: char): nat
    requires IsDigit(c)
  {
    c as int - '0' as int
  }

  /** Python's `str(n)` for a non-negative int: decimal digits without a leading zero. */
  function DecimalString(n: nat): (s: string)
    ensures |s| >= 1 && AllDigits(s)
    ensures s[0] == '0' ==> n == 0
    decreases n
  {
    if n < 10 then [DigitChar(n)] else DecimalString(n / 10) + [DigitChar(n % 10)]
  }

  /** The value of a string of decimal digits (the empty string reads as zero). */
  function ParseDecimal(s: string): nat
    requires AllDigits(s)
  {
    if s == [] then 0 else ParseDecimal(s[..|s| - 1]) * 10 + DigitValue(s[|s| - 1])
  }

  /** Reading back the decimal text of `n` gives `n`. */
  lemma {:induction false} ParseDecimalString(n: nat)
    ensures ParseDecimal(DecimalString(n)) == n
    decreases n
  {
    if n >= 10 {
      var s := DecimalString(n);
      assert s[..|s| - 1] == DecimalString(n / 10);
      ParseDecimalString(n / 10);
    }
  }

  /** "Status: Queue: N files waiting". */
  function QueueLabel(n: nat): string
  {
    QueuePrefix + DecimalString(n) + QueueSuffix
  }

  /** "Status: Transcribing " followed by the base name of the file. */
  function TranscribingLabel(p: string): string
  {
    TranscribingPrefix + Name(p)
  }

  /** The label `on_transcription_finished` sets, given the number of paths still queued. */
  function FinishedLabel(waiting: nat): string
  {
    if waiting == 0 then IdleLabel else QueueLabel(waiting)
  }

  /**
   * `update_status`: report the queue depth, but only when something is queued and no
   * row is being transcribed; otherwise keep the current label.
   */
  function RefreshedLabel(current: string, waiting: nat, rows: seq<Row>): string
  {
    if waiting > 0 && !AnyTranscribing(rows) then QueueLabel(waiting) else current
  }

  /** The N a label of the form "Status: Queue: N files waiting" reports, if it has that form. */
  function WaitingCount(text: string): Option<nat>
  {
    var lo, hi := |QueuePrefix|, |text| - |QueueSuffix|;
    if lo < hi && text[..lo] == QueuePrefix && text[hi..] == QueueSuffix && AllDigits(text[lo..hi])
    then Some(ParseDecimal(text[lo..hi]))
    else None
  }

  /** The queue label reports exactly the number it was built from. */
  lemma QueueLabelReadsBack(n: nat)
    ensures WaitingCount(QueueLabel(n)) == Some(n)
  {
    var text, digits := QueueLabel(n), DecimalString(n);
    var lo, hi := |QueuePrefix|, |text| - |QueueSuffix|;
    assert text[..lo] == QueuePrefix;
    assert text[hi..] == QueueSuffix;
    assert text[lo..hi] == digits;
    ParseDecimalString(n);
  }

  /** Distinct queue depths give distinct labels. */
  lemma QueueLabelInjective(m: nat, n: nat)
    requires QueueLabel(m) == QueueLabel(n)
    ensures m == n
  {
    QueueLabelReadsBack(m);
    QueueLabelReadsBack(n);
  }

  /** Neither the idle text nor a transcribing text reports a queue depth. */
  lemma OtherLabelsCarryNoCount(p: string)
    ensures WaitingCount(IdleLabel) == None
    ensures WaitingCount(TranscribingLabel(p)) == None
  {
    var text := TranscribingLabel(p);
    if |text| > |QueuePrefix| {
      assert text[8] == 'T' && QueuePrefix[8] == 'Q';
      assert text[..|QueuePrefix|] != QueuePrefix;
    }
  }

  /** A queue label is never the idle label. */
  lemma QueueLabelNotIdle(n: nat)
    ensures QueueLabel(n) != IdleLabel
  {
    var text := QueueLabel(n);
    assert text[..|QueuePrefix|] == QueuePrefix;
    assert text[8] == 'Q' && IdleLabel[8] == 'I';
  }

  /** After a transcription finishes the label reads "Status: Idle" exactly when the queue is empty. */
  lemma FinishedLabelIdleIff(waiting: nat)
    ensures FinishedLabel(waiting) == IdleLabel <==> waiting == 0
  {
    if waiting > 0 {
      QueueLabelNotIdle(waiting);
    }
  }

  /** Otherwise the label reports the exact queue depth; the idle label reports none. */
  lemma FinishedLabelReportsQueue(waiting: nat)
    ensures WaitingCount(FinishedLabel(waiting)) == if waiting == 0 then None else Some(waiting)
  {
    if waiting > 0 {
      QueueLabelReadsBack(waiting);
    } else {
      OtherLabelsCarryNoCount("");
    }
  }

  /**
   * `update_status` rewrites the text exactly when the queue is non-empty and no row is
   * "Transcribing", and the text it writes reports the exact queue depth.
   */
  lemma RefreshedLabelRule(current: string, waiting: nat, rows: seq<Row>)
    ensures waiting == 0 || AnyTranscribing(rows) ==> RefreshedLabel(current, waiting, rows) == current
    ensures waiting > 0 && !AnyTranscribing(rows) ==>
              WaitingCount(RefreshedLabel(current, waiting, rows)) == Some(waiting)
  {
    QueueLabelReadsBack(waiting);
  }
}
