# All Dafny files of the project.
includes = ["**/*.dfy"]
