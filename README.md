# Wareki converter — Dafny model

This project models the core of a web app that converts a Gregorian year into a
Japanese era (wareki) name and era year. The app is a year converter.

- **Era table** (`era_data.dfy`, module `EraData`) holds three eras in a fixed order: 昭和 1926–1989, 平成 1989–2019 and 令和 from 2019 with no end.
  - Each era's interval is inclusive.
  - A closed era ends in the year the next era starts, so each pair of neighbours shares one year.
  - Predicates state the table's intended shape. Lemmas prove that the actual table has that shape and that any table of that shape leaves no gap.
- **Conversion engine** (`era_calculation.dfy`, module `EraCalculation`) has two operations:
  - `ValidateYear` checks three things in order: that the year is an integer, that it is at least 1950, and that it is at most 2025. Each failure has its own Japanese message.
  - `ConvertWesternToEra` first runs the validator and passes on its message unchanged. It then scans the table for the first era whose interval holds the year.
  - The era year is `year - startYear + 1`. The full text is the era name, then the decimal digits of the era year, then 年.
  - Because the first match wins, 1989 gives 昭和64年 and 2019 gives 平成31年. So 平成1年 and 令和1年 can never be produced.
- **Decimal rendering** (`decimal.dfy`, module `Decimal`) models how the template literal writes the era year as a string. It also parses the digits back. Lemmas prove both round trips.

The input year is a Dafny `real`, which is an exact rational. `Number.isInteger` becomes `year == year.Floor as real`.

Neighbouring eras share their boundary year and the first match wins, so 1989 gives 昭和64年 and 2019 gives 平成31年, never 令和1年. 1926 lies inside 昭和 but below the 1950 horizon, so it is rejected. `HeiseiExamples` and `RejectionExamples` prove these outputs.

## Model

| member | source | states |
|---|---|---|
| `EraData.EraTableShape` | src/data/eraData.ts:8-27 | the table has exactly three entries: 昭和 from 1926 to 1989, 平成 from 1989 to 2019, and 令和 from 2019 with no end; start years strictly ascend, only the last era is open, every closed era starts no later than it ends, and each closed era ends where the next starts |
| `EraData.CoverageWithoutGap` | src/data/eraData.ts:8-27 | in any table of that shape, every year from the first start year on lies in some era |
| `EraData.EraTableCoversFrom1926` | src/data/eraData.ts:8-27 | with the actual table, every year from 1926 on lies in some era |
| `EraCalculation.ValidateYear` | src/utils/eraCalculation.ts:4-27 | valid exactly when the year is an integer with 1950 <= year <= 2025; otherwise the error is one of the three validation messages |
| `EraCalculation.ValidationMessages` | src/utils/eraCalculation.ts:5-24 | a non-integer input gets the integer message even when it is out of range; an integer below 1950 gets the too-early message; an integer above 2025 gets the too-late message; the three messages are distinct |
| `EraCalculation.FindEra` | src/utils/eraCalculation.ts:39-40 | returns the index of the first era in table order whose interval holds the year, or none when no era holds it |
| `EraCalculation.ConvertWesternToEra` | src/utils/eraCalculation.ts:29-55 | when validation fails, the result is a failure carrying the validator's message unchanged; when the year is valid but no era holds it, the result is the failure 該当する年号が見つかりません; on success, the year is valid, the era is the first one that holds the year, `year == startYear + eraYear - 1`, `eraYear >= 1`, and `fullText` is the name, then the decimal digits of `eraYear`, then 年 |
| `EraCalculation.ConvertSucceedsExactlyOnValidYears` | src/utils/eraCalculation.ts:39-54 | conversion succeeds exactly when validation does, so the "no matching era" failure cannot happen with this table |
| `EraCalculation.FirstMatchSkipsSharedStartYear` | src/utils/eraCalculation.ts:39-41 | in a well-formed table, a year whose first match is a later era lies strictly after that era's start year, because the era before it claims the shared year |
| `EraCalculation.LaterErasNeverYearOne` | src/utils/eraCalculation.ts:39-47 | any successful result whose era is not the first era, 昭和, has era year at least 2, so 平成1年 and 令和1年 are never produced |
| `EraCalculation.FullTextReadsBack` | src/utils/eraCalculation.ts:43-46 | on success, `fullText` begins with the era name and ends with 年, and the characters in between are digits whose value is `eraYear` |
| `EraCalculation.ShowaExamples` | src/utils/eraCalculation.ts:39-47 | 1950 gives 昭和25年, and 1989, the year 昭和 shares with 平成, gives 昭和64年 |
| `EraCalculation.HeiseiExamples` | src/utils/eraCalculation.ts:39-47 | 1990 gives 平成2年, and 2019, the year 平成 shares with 令和, gives 平成31年 |
| `EraCalculation.ReiwaExamples` | src/utils/eraCalculation.ts:39-47 | 2020 gives 令和2年 and 2025 gives 令和7年 |
| `EraCalculation.RejectionExamples` | src/utils/eraCalculation.ts:4-36 | 1926 fails as too early, 1949.5 fails as not an integer, and 2026 fails as too late |
| `Decimal.NatToDecimal` | src/utils/eraCalculation.ts:46 | the rendering of a number is a non-empty digit string with no leading zero, except for the string "0" |
| `Decimal.DecimalRoundTrip` | src/utils/eraCalculation.ts:46 | reading back the rendering of `n` gives `n` |
| `Decimal.CanonicalRoundTrip` | src/utils/eraCalculation.ts:46 | rendering the value of any canonical digit string gives that same string back |

## Left out

- The React component that calls the converter is not modelled. It parses the input with `parseInt`, debounces for 300 ms with timers, copies to the clipboard and holds UI state. The model starts after parsing.
- NaN and ±Infinity are not modelled. The model's input is an exact rational, not an IEEE double. For doubles the integrality check and the comparisons give the same answers as on the rational the double denotes.
- The era description field is carried in `Era` but conversion never reads it.
- The descriptive copy of the era table used only by the era list, and its display-only period formatting, are not modelled. They are UI text and conversion never reads them.
- Service-worker and PWA registration, performance telemetry, page layout and build configuration are not modelled. They are browser I/O and presentation code.
- Idempotence and the absence of hidden state have no lemma. They hold because every operation is a Dafny function.
