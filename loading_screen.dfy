/** components/ui/loading-screen.tsx: the number of bed placeholders per row
    of the start-up skeleton, chosen from the window width. */
module LoadingScreen {
  import opened Types

  /** `getBedsPerRow`: three below 400, four below 600, five below 800, six
      from 800 on. */
  function GetBedsPerRow(width: real): (n: BedsPerRow)
    ensures width < 400.0 ==> n == 3
    ensures 400.0 <= width < 600.0 ==> n == 4
    ensures 600.0 <= width < 800.0 ==> n == 5
    ensures 800.0 <= width ==> n == 6
  {
    if width < 400.0 then 3
    else if width < 600.0 then 4
    else if width < 800.0 then 5
    else 6
  }

  /** The count is at least three and at most six (the result type keeps it
      among the counts the home grid allows), and it never
      shrinks as the window widens. */
  lemma BedsPerRowBounds(narrow: real, wide: real)
    requires narrow <= wide
    ensures 3 <= GetBedsPerRow(narrow) <= GetBedsPerRow(wide) <= 6
  {
  }
}
