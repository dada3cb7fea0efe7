# Contest duration display — a Dafny model

This project models the contest-phase display of the contest platform's web
frontend: the `ContestDuration` component in
`packages/frontend/src/components/common/contest-duration.tsx`. For each contest
status it decides which captions are shown. It also decides which lifecycle
timestamp each countdown targets. Its `renderer` writes one countdown's remaining
time as text.

The model has three modules:

- `ContestDuration` (`contest_duration.dfy`) holds the contest status, the four
  lifecycle timestamps, the displayed items (a caption `Label` or a
  `Countdown` to an instant in milliseconds), the renderer `Render`, the
  seconds-to-milliseconds conversion `ToMillis` and the status switch `Message`.
  It also holds lemmas that give each status's exact display, the countdown
  targets, their chronological order, and the fact that the display tells the
  statuses apart.
- `DurationText` (`duration_text.dfy`) holds a reader for the renderer's text.
  It accepts an optional days part, then an optional hours part, then an optional
  minutes part, and nothing else; it rejects a part whose value is zero. The round
  trip `RenderRoundTrip` proves that the text of a running countdown gives back
  days, hours and minutes exactly. So no zero component is written, the order is
  fixed, and there is no seconds part. The `RenderShows…Iff` lemmas state, part by
  part and in both directions, that each part is there iff its value is non-zero.
- `Decimal` (`decimal.dfy`) writes an integer as JavaScript's template literal
  `${n}` does for an integral number of magnitude below 2^53 (a safe integer). It
  also reads such text back, which the round trip needs.

The contest status is a datatype with the five named cases `Inactive`,
`OpenForParticipants`, `VotingStarted`, `Ended` and `Canceled`. A sixth case,
`Other(code)`, stands for any status number that matches none of the five. The
numeric codes live in `@/lib/utils`, which is not part of this model. The
component's timestamps are whole seconds, and the model keeps them as unbounded
integers.

## Model

| member | source | states |
|---|---|---|
| `ContestDuration.Render` | packages/frontend/src/components/common/contest-duration.tsx:13-25 | once the countdown has completed the text is exactly "Time is up!", whatever days, hours and minutes are; while it runs with days = hours = minutes = 0 the text is empty |
| `ContestDuration.ToMillis` | packages/frontend/src/components/common/contest-duration.tsx:34-37 | a countdown target is a whole number of seconds in milliseconds (divisible by 1000), and dividing by 1000 gives back the contract's timestamp exactly |
| `ContestDuration.Message` | packages/frontend/src/components/common/contest-duration.tsx:39-71 | the display is empty exactly for a status outside the five named ones; it has a countdown exactly for Inactive, OpenForParticipants and VotingStarted; every countdown comes right after a caption; every countdown target is one of the four lifecycle timestamps times 1000 |
| `ContestDuration.Targets` | packages/frontend/src/components/common/contest-duration.tsx:45-61 | the countdown targets of a display, in display order; there are none exactly when the display has no countdown |
| `ContestDuration.MessageTable` | packages/frontend/src/components/common/contest-duration.tsx:40-70 | Inactive shows "Contest is open in:" and a countdown to entry start; OpenForParticipants shows "Contest participation ends in:", a countdown to entry end, "Voting starts in:" and a countdown to voting start, in that order; VotingStarted shows "Voting ends in:" and a countdown to voting end; Canceled shows only "Contest has been canceled."; Ended shows only "Contest has ended."; any other status shows nothing |
| `ContestDuration.MessageTargets` | packages/frontend/src/components/common/contest-duration.tsx:34-63 | the countdowns of each status target exactly the timestamps still ahead in its phase, converted to milliseconds, in display order; Canceled, Ended and unknown statuses have none |
| `ContestDuration.TargetsChronological` | packages/frontend/src/components/common/contest-duration.tsx:48-56 | when entry start ≤ entry end ≤ voting start ≤ voting end, the countdowns of any status are shown in chronological order |
| `ContestDuration.MessageDeterminesStatus` | packages/frontend/src/components/common/contest-duration.tsx:40-67 | two statuses with the same non-empty display are the same status, so the five named phases are told apart on screen |
| `DurationText.RenderRoundTrip` | packages/frontend/src/components/common/contest-duration.tsx:17-23 | the text of a running countdown reads back as exactly its days, hours and minutes: no zero component is written (the reader rejects an explicit zero part), the order is days, hours, minutes, and the text holds nothing else (no seconds) |
| `DurationText.RenderShowsDaysIff` | packages/frontend/src/components/common/contest-duration.tsx:19 | a running countdown's text starts with `<days> days ` iff days is non-zero |
| `DurationText.RenderShowsHoursIff` | packages/frontend/src/components/common/contest-duration.tsx:20 | `<hours> hrs ` follows the days part iff hours is non-zero |
| `DurationText.RenderShowsMinutesIff` | packages/frontend/src/components/common/contest-duration.tsx:21 | a running countdown's text ends with `<minutes> mins ` iff minutes is non-zero |
| `DurationText.CompletedIsDistinct` | packages/frontend/src/components/common/contest-duration.tsx:14-22 | no running countdown's text equals the completed text "Time is up!" |
| `DurationText.ReadRejectsZeroPart` | packages/frontend/src/components/common/contest-duration.tsx:19-21 | the reader used by the round trip refuses a part whose value is zero, so a renderer that wrote `0 days ` would fail the round trip |
| `DurationText.RenderInjective` | packages/frontend/src/components/common/contest-duration.tsx:17-23 | two running countdowns with the same text show the same days, hours and minutes |
| `Decimal.NatToString` | packages/frontend/src/components/common/contest-duration.tsx:19-21 | the decimal text of a count is non-empty, all digits, and starts with '0' only for zero (no leading zeros) |
| `Decimal.IntToString` | packages/frontend/src/components/common/contest-duration.tsx:19-21 | the text of an integer starts with '-' iff it is negative; apart from that sign it is all digits |
| `Decimal.NatToStringRoundTrip` | packages/frontend/src/components/common/contest-duration.tsx:19-21 | the value of the decimal text of a count is that count |
| `Decimal.ParseIntOf` | packages/frontend/src/components/common/contest-duration.tsx:19-21 | reading the text of any integer followed by a non-digit gives back that integer and stops right after it |

## Left out

- JSX and React rendering are left out: the `<span>`, `<p>` and wrapping `<div>` elements and their CSS classes (lines 15, 18-22 and 72-76). A display is modelled as a sequence of items, and a rendered countdown as its text.
- The countdown library (`react-countdown`) is left out: its ticking, and how it derives days, hours, minutes and `completed` from the target and the current clock. Those four values are inputs of `Render`, so "a target in the past shows Time is up!" holds only as far as the library sets `completed`.
- ContestDuration.ToMillis: does not model `Number(bigint)` rounding above 2^53 or the `Date` range limit. The conversion is exact integer multiplication by 1000. The timestamps are unbounded integers rather than signed 64-bit values.
- Decimal.IntToString: writes every digit of the number exactly. From 2^53 on, JavaScript writes the shortest digits that identify the rounded double and pads them with zeros (`${2**64}` is `18446744073709552000`), and from 10^21 on it uses exponent form (`1e+21`). No day, hour or minute count of a representable `Date` comes near 2^53.
- ContestDuration.Render: treats a component as shown iff it is a non-zero integer. JavaScript truthiness of `NaN` or `undefined` is not modelled, because the countdown library supplies whole numbers.
- The default branch of the status switch returns the empty string `""` rather than a fragment. The model writes it as the empty item sequence, which shows the same thing.
- The concrete integer codes of the contest status are left out, because they are defined in `@/lib/utils`, which is not part of this model.
- `packages/frontend/src/lib/font.ts` is left out. It is one configuration call into the font loader and has no logic.
- The entry-submission and winners components are not part of this model. They are wallet and contract calls wrapped in UI state.
